/**
 * The tracking lifecycle of `Tracker_::transition_table`: six states, four events, and
 * sixteen rows in their declaration order. As the Boost.MSM back-end does, rows that share
 * a source state and an event are tried from the last declared to the first, and the first
 * whose guard holds fires; a state that has rows for the anonymous event `none` is left by
 * them as soon as it is entered.
 */
module StateMachine {
  import opened Wrappers

  datatype State = WaitingForInput | DetectFlashcode | DetectModel | TrackModel | ReDetectFlashcode | Finished

  /** `input_ready`, `select_input`, `finished` and the anonymous `msm::front::none`. */
  datatype Event = InputReady | SelectInput | FinishedEvent | Anonymous

  /** The guard column of a row; `Unconditional` for `_row` and the `/* default behaviour */` rows. */
  datatype Guard = Unconditional | NoInputSelected | InputSelected | FlashcodeDetected
                 | FlashcodeRedetected | ModelDetected | MbtSuccess

  /** The action column of a row. */
  datatype Action = NoAction | FindFlashcodePos | TrackModelAction

  datatype Row = Row(source: State, event: Event, target: State, action: Action, guard: Guard)

  /** What each guard predicate answers while one event is processed (guards are oracles here). */
  datatype Outcomes = Outcomes(noInputSelected: bool, inputSelected: bool, flashcodeDetected: bool,
                               flashcodeRedetected: bool, modelDetected: bool, mbtSuccess: bool)

  /** The table, row by row as declared. */
  const Table: seq<Row> := [
    Row(WaitingForInput,   InputReady,    WaitingForInput,   NoAction,         NoInputSelected),
    Row(WaitingForInput,   InputReady,    DetectFlashcode,   NoAction,         InputSelected),
    Row(WaitingForInput,   SelectInput,   DetectFlashcode,   NoAction,         Unconditional),
    Row(DetectFlashcode,   InputReady,    DetectFlashcode,   NoAction,         Unconditional),
    Row(DetectFlashcode,   InputReady,    DetectModel,       FindFlashcodePos, FlashcodeDetected),
    Row(DetectModel,       Anonymous,     DetectFlashcode,   NoAction,         Unconditional),
    Row(DetectModel,       Anonymous,     TrackModel,        NoAction,         ModelDetected),
    Row(TrackModel,        InputReady,    ReDetectFlashcode, NoAction,         Unconditional),
    Row(TrackModel,        InputReady,    TrackModel,        TrackModelAction, MbtSuccess),
    Row(ReDetectFlashcode, InputReady,    DetectFlashcode,   NoAction,         Unconditional),
    Row(ReDetectFlashcode, InputReady,    DetectModel,       FindFlashcodePos, FlashcodeRedetected),
    Row(ReDetectFlashcode, InputReady,    TrackModel,        TrackModelAction, MbtSuccess),
    Row(TrackModel,        FinishedEvent, Finished,          NoAction,         Unconditional),
    Row(DetectModel,       FinishedEvent, Finished,          NoAction,         Unconditional),
    Row(DetectFlashcode,   FinishedEvent, Finished,          NoAction,         Unconditional),
    Row(ReDetectFlashcode, FinishedEvent, Finished,          NoAction,         Unconditional)
  ]

  predicate Holds(g: Guard, o: Outcomes)
  {
    match g
    case Unconditional => true
    case NoInputSelected => o.noInputSelected
    case InputSelected => o.inputSelected
    case FlashcodeDetected => o.flashcodeDetected
    case FlashcodeRedetected => o.flashcodeRedetected
    case ModelDetected => o.modelDetected
    case MbtSuccess => o.mbtSuccess
  }

  /** Row `r` would fire for event `e` in state `s`. */
  predicate Matches(r: Row, s: State, e: Event, o: Outcomes)
  {
    r.source == s && r.event == e && Holds(r.guard, o)
  }

  /** The index of the last row of `rows` that would fire: the row the back-end picks. */
  function LastMatch(rows: seq<Row>, s: State, e: Event, o: Outcomes): (k: Option<nat>)
    ensures k.Some? ==> k.value < |rows| && Matches(rows[k.value], s, e, o)
    ensures k.Some? ==> forall j :: k.value < j < |rows| ==> !Matches(rows[j], s, e, o)
    ensures k.None? ==> forall j :: 0 <= j < |rows| ==> !Matches(rows[j], s, e, o)
  {
    if |rows| == 0 then None
    else if Matches(rows[|rows| - 1], s, e, o) then Some(|rows| - 1)
    else LastMatch(rows[..|rows| - 1], s, e, o)
  }

  datatype Transition = Transition(target: State, action: Action)

  /** One lookup in the table: the transition that fires, if any. */
  function Fire(s: State, e: Event, o: Outcomes): Option<Transition>
  {
    match LastMatch(Table, s, e, o)
    case None => None
    case Some(k) => Some(Transition(Table[k].target, Table[k].action))
  }

  /** The lookup fires the last matching row, and nothing when no row matches. */
  lemma FireIsLastMatch(s: State, e: Event, o: Outcomes)
    ensures Fire(s, e, o).None? <==> forall j :: 0 <= j < |Table| ==> !Matches(Table[j], s, e, o)
    ensures Fire(s, e, o).Some? ==>
              exists k :: 0 <= k < |Table| && Matches(Table[k], s, e, o)
                          && (forall j :: k < j < |Table| ==> !Matches(Table[j], s, e, o))
                          && Fire(s, e, o).value == Transition(Table[k].target, Table[k].action)
  {
    var k := LastMatch(Table, s, e, o);
    if k.Some? {
      assert Matches(Table[k.value], s, e, o);
    }
  }

  /**
   * The same table written as explicit priorities per state and event: the reference the
   * table is checked against.
   */
  function Reference(s: State, e: Event, o: Outcomes): Option<Transition>
  {
    match (s, e)
    case (WaitingForInput, InputReady) =>
      if o.inputSelected then Some(Transition(DetectFlashcode, NoAction))
      else if o.noInputSelected then Some(Transition(WaitingForInput, NoAction))
      else None
    case (WaitingForInput, SelectInput) => Some(Transition(DetectFlashcode, NoAction))
    case (DetectFlashcode, InputReady) =>
      if o.flashcodeDetected then Some(Transition(DetectModel, FindFlashcodePos))
      else Some(Transition(DetectFlashcode, NoAction))
    case (DetectModel, Anonymous) =>
      if o.modelDetected then Some(Transition(TrackModel, NoAction))
      else Some(Transition(DetectFlashcode, NoAction))
    case (TrackModel, InputReady) =>
      if o.mbtSuccess then Some(Transition(TrackModel, TrackModelAction))
      else Some(Transition(ReDetectFlashcode, NoAction))
    case (ReDetectFlashcode, InputReady) =>
      if o.mbtSuccess then Some(Transition(TrackModel, TrackModelAction))
      else if o.flashcodeRedetected then Some(Transition(DetectModel, FindFlashcodePos))
      else Some(Transition(DetectFlashcode, NoAction))
    case (_, FinishedEvent) =>
      if s in {DetectFlashcode, DetectModel, TrackModel, ReDetectFlashcode}
      then Some(Transition(Finished, NoAction))
      else None
    case _ => None
  }

  /** The indices of the rows whose source is `s` and whose event is `e`. */
  function RowsFor(s: State, e: Event): set<int>
  {
    match (s, e)
    case (WaitingForInput, InputReady) => {0, 1}
    case (WaitingForInput, SelectInput) => {2}
    case (DetectFlashcode, InputReady) => {3, 4}
    case (DetectModel, Anonymous) => {5, 6}
    case (TrackModel, InputReady) => {7, 8}
    case (ReDetectFlashcode, InputReady) => {9, 10, 11}
    case (TrackModel, FinishedEvent) => {12}
    case (DetectModel, FinishedEvent) => {13}
    case (DetectFlashcode, FinishedEvent) => {14}
    case (ReDetectFlashcode, FinishedEvent) => {15}
    case _ => {}
  }

  lemma {:induction false} RowsForIsExact(j: int, s: State, e: Event)
    requires 0 <= j < |Table|
    ensures j in RowsFor(s, e) <==> Table[j].source == s && Table[j].event == e
  {
    match (s, e)
    case (WaitingForInput, _) =>
    case (DetectFlashcode, _) =>
    case (DetectModel, _) =>
    case (TrackModel, _) =>
    case (ReDetectFlashcode, _) =>
    case (Finished, _) =>
  }

  /** Looking the event up in the table gives the reference transition, for every input. */
  lemma TableIsReference(s: State, e: Event, o: Outcomes)
    ensures Fire(s, e, o) == Reference(s, e, o)
  {
    match e
    case InputReady => InputReadyRows(s, o);
    case SelectInput => SelectInputRows(s, o);
    case FinishedEvent => FinishedRows(s, o);
    case Anonymous => AnonymousRows(s, o);
  }

  lemma InputReadyRows(s: State, o: Outcomes)
    ensures Fire(s, InputReady, o) == Reference(s, InputReady, o)
  {
    var k := LastMatch(Table, s, InputReady, o);
    if k.Some? {
      RowsForIsExact(k.value, s, InputReady);
    }
    match s
    case WaitingForInput =>
      assert o.inputSelected ==> Matches(Table[1], s, InputReady, o);
      assert o.noInputSelected ==> Matches(Table[0], s, InputReady, o);
    case DetectFlashcode =>
      assert Matches(Table[3], s, InputReady, o);
      assert o.flashcodeDetected ==> Matches(Table[4], s, InputReady, o);
    case TrackModel =>
      assert Matches(Table[7], s, InputReady, o);
      assert o.mbtSuccess ==> Matches(Table[8], s, InputReady, o);
    case ReDetectFlashcode =>
      assert Matches(Table[9], s, InputReady, o);
      assert o.flashcodeRedetected ==> Matches(Table[10], s, InputReady, o);
      assert o.mbtSuccess ==> Matches(Table[11], s, InputReady, o);
    case _ =>
  }

  lemma SelectInputRows(s: State, o: Outcomes)
    ensures Fire(s, SelectInput, o) == Reference(s, SelectInput, o)
  {
    var k := LastMatch(Table, s, SelectInput, o);
    if k.Some? {
      RowsForIsExact(k.value, s, SelectInput);
    }
    if s == WaitingForInput {
      assert Matches(Table[2], s, SelectInput, o);
    }
  }

  lemma FinishedRows(s: State, o: Outcomes)
    ensures Fire(s, FinishedEvent, o) == Reference(s, FinishedEvent, o)
  {
    var k := LastMatch(Table, s, FinishedEvent, o);
    if k.Some? {
      RowsForIsExact(k.value, s, FinishedEvent);
    }
    match s
    case TrackModel => assert Matches(Table[12], s, FinishedEvent, o);
    case DetectModel => assert Matches(Table[13], s, FinishedEvent, o);
    case DetectFlashcode => assert Matches(Table[14], s, FinishedEvent, o);
    case ReDetectFlashcode => assert Matches(Table[15], s, FinishedEvent, o);
    case _ =>
  }

  lemma AnonymousRows(s: State, o: Outcomes)
    ensures Fire(s, Anonymous, o) == Reference(s, Anonymous, o)
  {
    var k := LastMatch(Table, s, Anonymous, o);
    if k.Some? {
      RowsForIsExact(k.value, s, Anonymous);
    }
    if s == DetectModel {
      assert Matches(Table[5], s, Anonymous, o);
      assert o.modelDetected ==> Matches(Table[6], s, Anonymous, o);
    }
  }

  /** A row leaves `s` on `e` whatever the guards say. */
  predicate HasDefaultRow(s: State, e: Event)
  {
    exists j :: 0 <= j < |Table| && Table[j].source == s && Table[j].event == e && Table[j].guard == Unconditional
  }

  /** Some row leaves `s` on `e`. */
  predicate HasRow(s: State, e: Event)
  {
    exists j :: 0 <= j < |Table| && Table[j].source == s && Table[j].event == e
  }

  /**
   * Every state and event that has rows has a default row among them, except
   * `WaitingForInput` on `input_ready`, which has only the two guarded rows.
   */
  lemma OnlyWaitingLacksDefault(s: State, e: Event)
    ensures HasRow(s, e) && !HasDefaultRow(s, e) <==> s == WaitingForInput && e == InputReady
  {
    if HasRow(s, e) {
      var j :| 0 <= j < |Table| && Table[j].source == s && Table[j].event == e;
      RowsForIsExact(j, s, e);
      if !(s == WaitingForInput && e == InputReady) {
        var d :| d in RowsFor(s, e) && Table[d].guard == Unconditional;
        RowsForIsExact(d, s, e);
      }
    }
    if s == WaitingForInput && e == InputReady {
      assert Table[0].source == s && Table[0].event == e;
      forall j | 0 <= j < |Table| && Table[j].source == s && Table[j].event == e
        ensures Table[j].guard != Unconditional
      {
        RowsForIsExact(j, s, e);
      }
    }
  }

  /** A default row means the event is always handled. */
  lemma DefaultRowFires(s: State, e: Event, o: Outcomes)
    requires HasDefaultRow(s, e)
    ensures Fire(s, e, o).Some?
  {
    var j :| 0 <= j < |Table| && Table[j].source == s && Table[j].event == e && Table[j].guard == Unconditional;
    assert Matches(Table[j], s, e, o);
    FireIsLastMatch(s, e, o);
  }

  /** The result of processing one external event: the state at rest and the actions run. */
  datatype Reaction = Reaction(state: State, actions: seq<Action>, handled: bool)

  /**
   * `process_event`: fire the event; if the target has anonymous rows, fire `none` at once.
   * An event no row accepts leaves the state unchanged: the default `no_transition` only
   * asserts, and that assertion is not modelled.
   */
  function Process(s: State, e: Event, o: Outcomes): (r: Reaction)
    requires e != Anonymous
    ensures r.handled <==> Fire(s, e, o).Some?
    ensures !r.handled ==> r.state == s && r.actions == []
    ensures r.handled ==> 1 <= |r.actions| <= 2 && r.actions[0] == Fire(s, e, o).value.action
    ensures r.handled && Fire(Fire(s, e, o).value.target, Anonymous, o).None? ==> r.state == Fire(s, e, o).value.target
  {
    match Fire(s, e, o)
    case None => Reaction(s, [], false)
    case Some(t) =>
      match Fire(t.target, Anonymous, o)
      case None => Reaction(t.target, [t.action], true)
      case Some(c) => Reaction(c.target, [t.action, c.action], true)
  }

  /** A completion transition never enters a state with completion rows, so one round suffices. */
  lemma CompletionSettles(s: State, o: Outcomes)
    ensures Fire(s, Anonymous, o).Some? ==> Fire(Fire(s, Anonymous, o).value.target, Anonymous, o).None?
  {
    AnonymousRows(s, o);
    if Fire(s, Anonymous, o).Some? {
      AnonymousRows(Fire(s, Anonymous, o).value.target, o);
    }
  }

  /** `Finished` is absorbing: no event is accepted there. */
  lemma FinishedIsAbsorbing(e: Event, o: Outcomes)
    requires e != Anonymous
    ensures Process(Finished, e, o) == Reaction(Finished, [], false)
  {
    TableIsReference(Finished, e, o);
  }

  /** `finished` ends every tracking state unconditionally; `WaitingForInput` has no such row. */
  lemma FinishedEventEndsTracking(s: State, o: Outcomes)
    ensures s in {DetectFlashcode, DetectModel, TrackModel, ReDetectFlashcode} ==>
              Process(s, FinishedEvent, o) == Reaction(Finished, [NoAction], true)
    ensures s in {WaitingForInput, Finished} ==> Process(s, FinishedEvent, o) == Reaction(s, [], false)
  {
    FinishedRows(s, o);
    AnonymousRows(Finished, o);
  }

  /** `select_input` starts detection from `WaitingForInput`, and is ignored everywhere else. */
  lemma SelectInputStartsDetection(s: State, o: Outcomes)
    ensures s == WaitingForInput ==> Process(s, SelectInput, o) == Reaction(DetectFlashcode, [NoAction], true)
    ensures s != WaitingForInput ==> Process(s, SelectInput, o) == Reaction(s, [], false)
  {
    SelectInputRows(s, o);
    AnonymousRows(DetectFlashcode, o);
  }

  /** `input_ready` while waiting: `input_selected` is tried before `no_input_selected`. */
  lemma WaitingOnInput(o: Outcomes)
    ensures Process(WaitingForInput, InputReady, o) ==
              if o.inputSelected then Reaction(DetectFlashcode, [NoAction], true)
              else if o.noInputSelected then Reaction(WaitingForInput, [NoAction], true)
              else Reaction(WaitingForInput, [], false)
  {
    InputReadyRows(WaitingForInput, o);
    AnonymousRows(DetectFlashcode, o);
    AnonymousRows(WaitingForInput, o);
  }

  /**
   * `input_ready` in `DetectFlashcode`: a detection runs `find_flashcode_pos` and enters
   * `DetectModel`, which the completion leaves at once for `TrackModel` when `model_detected`
   * holds and for `DetectFlashcode` otherwise; a failed detection stays put.
   */
  lemma DetectFlashcodeOnInput(o: Outcomes)
    ensures Process(DetectFlashcode, InputReady, o) ==
              if !o.flashcodeDetected then Reaction(DetectFlashcode, [NoAction], true)
              else if o.modelDetected then Reaction(TrackModel, [FindFlashcodePos, NoAction], true)
              else Reaction(DetectFlashcode, [FindFlashcodePos, NoAction], true)
  {
    InputReadyRows(DetectFlashcode, o);
    AnonymousRows(DetectModel, o);
    AnonymousRows(DetectFlashcode, o);
  }

  /** `input_ready` in `TrackModel`: keep tracking iff `mbt_success`, else recover. */
  lemma TrackModelOnInput(o: Outcomes)
    ensures Process(TrackModel, InputReady, o) ==
              if o.mbtSuccess then Reaction(TrackModel, [TrackModelAction], true)
              else Reaction(ReDetectFlashcode, [NoAction], true)
  {
    InputReadyRows(TrackModel, o);
    AnonymousRows(TrackModel, o);
    AnonymousRows(ReDetectFlashcode, o);
  }

  /**
   * `input_ready` in `ReDetectFlashcode`, rows tried bottom-up: `mbt_success` (back to
   * tracking), then `flashcode_redetected` (through `DetectModel`), then the default.
   */
  lemma ReDetectOnInput(o: Outcomes)
    ensures Process(ReDetectFlashcode, InputReady, o) ==
              if o.mbtSuccess then Reaction(TrackModel, [TrackModelAction], true)
              else if !o.flashcodeRedetected then Reaction(DetectFlashcode, [NoAction], true)
              else if o.modelDetected then Reaction(TrackModel, [FindFlashcodePos, NoAction], true)
              else Reaction(DetectFlashcode, [FindFlashcodePos, NoAction], true)
  {
    InputReadyRows(ReDetectFlashcode, o);
    AnonymousRows(TrackModel, o);
    AnonymousRows(DetectModel, o);
    AnonymousRows(DetectFlashcode, o);
  }

  /** Processing one event never leaves the machine at rest in `DetectModel`. */
  lemma NeverRestsInDetectModel(s: State, e: Event, o: Outcomes)
    requires s != DetectModel && e != Anonymous
    ensures Process(s, e, o).state != DetectModel
  {
    TableIsReference(s, e, o);
    if Fire(s, e, o).Some? {
      var t := Fire(s, e, o).value;
      AnonymousRows(t.target, o);
    }
  }

  /** One external event with the guard outcomes observed while it was processed. */
  datatype Input = Input(event: Event, outcomes: Outcomes)

  predicate External(ins: seq<Input>)
  {
    forall i :: 0 <= i < |ins| ==> ins[i].event != Anonymous
  }

  /** The state at rest after a sequence of events. */
  function Run(s: State, ins: seq<Input>): State
    requires External(ins)
    decreases |ins|
  {
    if ins == [] then s
    else Run(Process(s, ins[0].event, ins[0].outcomes).state, ins[1..])
  }

  /** From the initial state, no sequence of events ends at rest in `DetectModel`. */
  lemma {:induction false} RunAvoidsDetectModel(s: State, ins: seq<Input>)
    requires External(ins) && s != DetectModel
    ensures Run(s, ins) != DetectModel
    decreases |ins|
  {
    if ins != [] {
      NeverRestsInDetectModel(s, ins[0].event, ins[0].outcomes);
      assert External(ins[1..]);
      RunAvoidsDetectModel(Process(s, ins[0].event, ins[0].outcomes).state, ins[1..]);
    }
  }

  /** Once `Finished` is entered, every later sequence of events leaves it there. */
  lemma {:induction false} RunStaysFinished(ins: seq<Input>)
    requires External(ins)
    ensures Run(Finished, ins) == Finished
    decreases |ins|
  {
    if ins != [] {
      FinishedIsAbsorbing(ins[0].event, ins[0].outcomes);
      assert External(ins[1..]);
      RunStaysFinished(ins[1..]);
    }
  }

  /** Any number of frames on which detection fails keep the machine in `DetectFlashcode`. */
  lemma {:induction false} DetectionFailuresStay(ins: seq<Input>)
    requires forall i :: 0 <= i < |ins| ==> ins[i].event == InputReady && !ins[i].outcomes.flashcodeDetected
    ensures External(ins) && Run(DetectFlashcode, ins) == DetectFlashcode
    decreases |ins|
  {
    if ins != [] {
      DetectFlashcodeOnInput(ins[0].outcomes);
      DetectionFailuresStay(ins[1..]);
    }
  }

  const Succeeding := Outcomes(false, true, true, true, true, true)
  const Failing := Outcomes(false, false, false, false, false, false)

  /**
   * One frame with a detection and a pose takes `DetectFlashcode` straight to `TrackModel`:
   * the pose step is the anonymous completion, not a separate event.
   */
  lemma DetectionThenPoseTracks()
    ensures Run(WaitingForInput, [Input(SelectInput, Failing), Input(InputReady, Succeeding)]) == TrackModel
  {
    SelectInputStartsDetection(WaitingForInput, Failing);
    DetectFlashcodeOnInput(Succeeding);
    var a := [Input(SelectInput, Failing), Input(InputReady, Succeeding)];
    assert a[1..] == [Input(InputReady, Succeeding)];
    assert Run(TrackModel, []) == TrackModel;
    assert Run(DetectFlashcode, a[1..]) == Run(TrackModel, []);
  }

  /**
   * A failed health check in `TrackModel` leads to `ReDetectFlashcode`; when the carried-over
   * pose fails the health check again and the local re-detection fails too, detection
   * starts over in `DetectFlashcode`.
   */
  lemma LostTrackingFallsBack()
    ensures Run(TrackModel, [Input(InputReady, Failing)]) == ReDetectFlashcode
    ensures Run(TrackModel, [Input(InputReady, Failing), Input(InputReady, Failing)]) == DetectFlashcode
  {
    TrackModelOnInput(Failing);
    ReDetectOnInput(Failing);
    var b := [Input(InputReady, Failing), Input(InputReady, Failing)];
    assert b[1..] == [Input(InputReady, Failing)];
    assert Run(ReDetectFlashcode, []) == ReDetectFlashcode;
    assert Run(DetectFlashcode, []) == DetectFlashcode;
    assert Run(ReDetectFlashcode, b[1..]) == Run(DetectFlashcode, []);
  }
}

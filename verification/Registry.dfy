/**
  The control panel's registry: nodes with an optional address, sensors with an
  optional calibration, and the lists of nodes and sensors not to be added again this session.
  A reading arrives, or the user acts; any of the statements a handler sends to the
  database may fail, and then the handler stops where it is.
  */
module Registry {
  import opened Options

  type Id = string
  type Url = string

  datatype Key = Key(id: Id, ty: string)

  /** The two columns of a sensor's row. */
  datatype Cal = Cal(min: Option<int>, max: Option<int>)

  datatype Checks = Checks(autoAddNodes: bool, autoAddSensors: bool, calibrate: bool, paused: bool,
                           ignoreRemoved: bool, ignoreRemovedSensor: bool)

  datatype State = State(nodes: map<Id, Option<Url>>, sensors: map<Key, Cal>, ignored: seq<Id>,
                         ignoredSensors: seq<Key>, checks: Checks)

  const UNCHECKED := Checks(false, false, false, false, false, false)

  const INITIAL := State(map[], map[], [], [], UNCHECKED)

  /** An address is what Java's URL parser makes of the text, None if it refuses it. */
  datatype Event =
    | Sensed(id: Id, ty: string, value: int)
    | ManualNodeAdd(id: Id, address: Option<Url>)
    | ManualSensorAdd(id: Id, ty: string)
    | RemoveNode(id: Id)
    | RemoveSensor(id: Id, ty: string)
    | ResetCalibration(id: Id, ty: string)
    | UpdateAddress(id: Id, address: Option<Url>)
    | SetChecks(checks: Checks)
    | Restart(checks: Checks)

  datatype Statement =
    | SELECT_NODE | INSERT_NODE | DELETE_NODE | UPDATE_ADDRESS
    | SELECT_SENSORS | INSERT_SENSOR | DELETE_SENSOR | DELETE_SENSORS
    | SELECT_CALIBRATION | UPDATE_MIN | UPDATE_MAX | UPDATE_BOTH | UPDATE_RESET

  datatype Outcome =
    | Failed(what: Statement)
    | Refused | NodeUnknown | NodeIgnored | NodeAdded | SensorUnknown | SensorIgnored | SensorAdded
    | Paused | NoAddress | Forwarded(address: Url)
    | Done

  /** One event, with the statements that fail if they are reached. */
  datatype Step = Step(event: Event, faults: set<Statement>)

  // ---------- What the handlers do ----------

  function Fold(c: char): char {
    if 'A' <= c <= 'Z' then c - 'A' + 'a' else c
  }

  /** Texts equal but for the case of their letters. */
  predicate SameText(a: string, b: string) {
    |a| == |b| && forall i | 0 <= i < |a| :: Fold(a[i]) == Fold(b[i])
  }

  /** When two entries of the list of ignored sensors count as equal. */
  predicate SameSensor(a: Key, b: Key) {
    SameText(a.id, b.id) && SameText(a.ty, b.ty)
  }

  predicate Listed(list: seq<Key>, key: Key) {
    exists i :: 0 <= i < |list| && SameSensor(list[i], key)
  }

  /** The first entry that counts as equal goes. */
  function Unlist(list: seq<Key>, key: Key): seq<Key>
    decreases |list|
  {
    if list == [] then list
    else if SameSensor(list[0], key) then list[1..]
    else [list[0]] + Unlist(list[1..], key)
  }

  /** The row after a reading, and the statement that failed, if one did. */
  function Calibrated(c: Cal, value: int, faults: set<Statement>): (Cal, Option<Statement>) {
    if c.min.Some? && c.max.Some? then
      if value < c.min.value && UPDATE_MIN in faults then (c, Some(UPDATE_MIN))
      else
        var c' := if value < c.min.value then c.(min := Some(value)) else c;
        if value > c.max.value then
          if UPDATE_MAX in faults then (c', Some(UPDATE_MAX)) else (c'.(max := Some(value)), None)
        else (c', None)
    else if c.min.None? && c.max.None? then
      if UPDATE_BOTH in faults then (c, Some(UPDATE_BOTH)) else (Cal(Some(value), Some(value)), None)
    else (c, None)
  }

  function AfterCalibration(s: State, key: Key, value: int, faults: set<Statement>): (State, Option<Statement>)
    requires key in s.sensors
  {
    if !s.checks.calibrate then (s, None)
    else if SELECT_CALIBRATION in faults then (s, Some(SELECT_CALIBRATION))
    else
      var (c, failure) := Calibrated(s.sensors[key], value, faults);
      (s.(sensors := s.sensors[key := c]), failure)
  }

  function Forwarding(s: State, id: Id): Outcome
    requires id in s.nodes
  {
    if s.checks.paused then Paused
    else if s.nodes[id].None? then NoAddress
    else Forwarded(s.nodes[id].value)
  }

  function AfterSensed(s: State, e: Event, faults: set<Statement>): (State, Outcome)
    requires e.Sensed?
  {
    var key := Key(e.id, e.ty);
    if SELECT_NODE in faults then (s, Failed(SELECT_NODE))
    else if e.id !in s.nodes then
      if !s.checks.autoAddNodes then (s, NodeUnknown)
      else if e.id in s.ignored then (s, NodeIgnored)
      else if INSERT_NODE in faults then (s, Failed(INSERT_NODE))
      else (s.(nodes := s.nodes[e.id := None]), NodeAdded)
    else if SELECT_SENSORS in faults then (s, Failed(SELECT_SENSORS))
    else if key !in s.sensors then
      if !s.checks.autoAddSensors then (s, SensorUnknown)
      else if Listed(s.ignoredSensors, key) then (s, SensorIgnored)
      else if INSERT_SENSOR in faults then (s, Failed(INSERT_SENSOR))
      else (s.(sensors := s.sensors[key := Cal(None, None)]), SensorAdded)
    else
      var (s', failure) := AfterCalibration(s, key, e.value, faults);
      (s', if failure.Some? then Failed(failure.value) else Forwarding(s', e.id))
  }

  /** A Java list's remove takes out the first occurrence only. */
  function RemoveFirst<T(==)>(s: seq<T>, x: T): seq<T> {
    if s == [] then s
    else if s[0] == x then s[1..]
    else [s[0]] + RemoveFirst(s[1..], x)
  }

  function AfterManualNodeAdd(s: State, id: Id, address: Option<Url>, faults: set<Statement>): (State, Outcome) {
    if id == "" then (s, Refused)
    else if SELECT_NODE in faults then (s, Failed(SELECT_NODE))
    else if id in s.nodes || address.None? then (s, Refused)
    else
      var s' := s.(ignored := RemoveFirst(s.ignored, id));
      if INSERT_NODE in faults then (s', Failed(INSERT_NODE))
      else (s'.(nodes := s.nodes[id := address]), Done)
  }

  function AfterManualSensorAdd(s: State, id: Id, ty: string, faults: set<Statement>): (State, Outcome) {
    if ty == "" then (s, Refused)
    else if SELECT_SENSORS in faults then (s, Failed(SELECT_SENSORS))
    else if Key(id, ty) in s.sensors then (s, Refused)
    else if INSERT_SENSOR in faults then (s, Failed(INSERT_SENSOR))
    else
      (s.(sensors := s.sensors[Key(id, ty) := Cal(None, None)],
          ignoredSensors := Unlist(s.ignoredSensors, Key(id, ty))),
       Done)
  }

  function WithoutNode(sensors: map<Key, Cal>, id: Id): map<Key, Cal> {
    map key | key in sensors && key.id != id :: sensors[key]
  }

  /** The ignore list is extended before the database is asked; the two deletions follow. */
  function AfterRemoveNode(s: State, id: Id, faults: set<Statement>): (State, Outcome) {
    var s' := if s.checks.ignoreRemoved then s.(ignored := s.ignored + [id]) else s;
    if DELETE_NODE in faults then (s', Failed(DELETE_NODE))
    else if DELETE_SENSORS in faults then (s'.(nodes := s.nodes - {id}), Failed(DELETE_SENSORS))
    else
      (s'.(nodes := s.nodes - {id}, sensors := WithoutNode(s.sensors, id), checks := s.checks.(ignoreRemoved := false)),
       Done)
  }

  function AfterRemoveSensor(s: State, id: Id, ty: string, faults: set<Statement>): (State, Outcome) {
    var s' := if s.checks.ignoreRemovedSensor then s.(ignoredSensors := s.ignoredSensors + [Key(id, ty)]) else s;
    if DELETE_SENSOR in faults then (s', Failed(DELETE_SENSOR))
    else (s'.(sensors := s.sensors - {Key(id, ty)}, checks := s.checks.(ignoreRemovedSensor := false)), Done)
  }

  function AfterReset(s: State, id: Id, ty: string, faults: set<Statement>): (State, Outcome) {
    if UPDATE_RESET in faults then (s, Failed(UPDATE_RESET))
    else if Key(id, ty) in s.sensors then (s.(sensors := s.sensors[Key(id, ty) := Cal(None, None)]), Done)
    else (s, Done)
  }

  function AfterUpdateAddress(s: State, id: Id, address: Option<Url>, faults: set<Statement>): (State, Outcome) {
    if address.None? then (s, Refused)
    else if UPDATE_ADDRESS in faults then (s, Failed(UPDATE_ADDRESS))
    else if id in s.nodes then (s.(nodes := s.nodes[id := address]), Done)
    else (s, Done)
  }

  function Apply(s: State, step: Step): (State, Outcome) {
    var f := step.faults;
    match step.event
    case Sensed(_, _, _) => AfterSensed(s, step.event, f)
    case ManualNodeAdd(id, address) => AfterManualNodeAdd(s, id, address, f)
    case ManualSensorAdd(id, ty) => AfterManualSensorAdd(s, id, ty, f)
    case RemoveNode(id) => AfterRemoveNode(s, id, f)
    case RemoveSensor(id, ty) => AfterRemoveSensor(s, id, ty, f)
    case ResetCalibration(id, ty) => AfterReset(s, id, ty, f)
    case UpdateAddress(id, address) => AfterUpdateAddress(s, id, address, f)
    case SetChecks(checks) => (s.(checks := checks), Done)
    case Restart(checks) => (s.(ignored := [], ignoredSensors := [], checks := checks), Done)
  }

  function Run(history: seq<Step>): State {
    if history == [] then INITIAL
    else
      var k := |history| - 1;
      Apply(Run(history[..k]), history[k]).0
  }

  // ---------- Calibration over whole runs ----------

  /** The reading got past calibration, whether or not it could then be forwarded. */
  predicate GotThrough(outcome: Outcome) {
    outcome in {Paused, NoAddress} || outcome.Forwarded?
  }

  /** What a step does to the record of a sensor's readings: a reset empties it, a reading that got through is added. */
  ghost function Recorded(s: State, step: Step, key: Key, readings: seq<int>): seq<int> {
    var e, outcome := step.event, Apply(s, step).1;
    if e == ResetCalibration(key.id, key.ty) && outcome == Done then []
    else if e.Sensed? && Key(e.id, e.ty) == key && s.checks.calibrate && GotThrough(outcome) then readings + [e.value]
    else readings
  }

  /** The readings of a sensor that got through with calibration on, since it was registered or last reset. */
  ghost function Readings(history: seq<Step>, key: Key): seq<int> {
    if history == [] then []
    else
      var k := |history| - 1;
      var before := Run(history[..k]);
      if key !in before.sensors || key !in Apply(before, history[k]).0.sensors then []
      else Recorded(before, history[k], key, Readings(history[..k], key))
  }

  /** The row holds nothing for no readings, and otherwise exactly the least and the greatest. */
  ghost predicate Spans(c: Cal, readings: seq<int>) {
    if readings == [] then c == Cal(None, None)
    else
      && c.min.Some? && c.max.Some? && c.min.value in readings && c.max.value in readings
      && forall v | v in readings :: c.min.value <= v <= c.max.value
  }

  lemma CalibratedSpans(c: Cal, readings: seq<int>, value: int, faults: set<Statement>)
    requires Spans(c, readings)
    ensures
      var (c', failure) := Calibrated(c, value, faults);
      Spans(c', if failure.None? then readings + [value] else readings)
  {
    var (c', failure) := Calibrated(c, value, faults);
    if failure.None? {
      var more := readings + [value];
      assert more[|readings|] == value;
      forall v | v in readings ensures v in more {
        var i :| 0 <= i < |readings| && readings[i] == v;
        assert more[i] == v;
      }
    }
  }

  /** One step: a row that was there and still is changes only by a reset or by a reading that got through. */
  lemma RowStep(s: State, step: Step, key: Key, readings: seq<int>)
    requires key in s.sensors && Spans(s.sensors[key], readings)
    ensures
      var after := Apply(s, step).0;
      key in after.sensors ==> Spans(after.sensors[key], Recorded(s, step, key, readings))
  {
    hide Spans, Calibrated;
    var e := step.event;
    if e.Sensed? {
      CalibratedSpans(s.sensors[key], readings, e.value, step.faults);
    } else if e.ResetCalibration? {
      SpansNothing();
    }
  }

  lemma SpansNothing()
    ensures Spans(Cal(None, None), [])
  {
  }

  /** A row that was not there is inserted uncalibrated. */
  lemma NewRow(s: State, step: Step, key: Key)
    requires key !in s.sensors
    ensures var after := Apply(s, step).0; key in after.sensors ==> Spans(after.sensors[key], [])
  {
    hide Spans, Calibrated;
    SpansNothing();
  }

  /**
    In every run, whatever statements fail, each sensor's columns are both empty or hold
    exactly the least and the greatest of the readings that got through with calibration on
    since the sensor was registered or last reset.
    */
  lemma {:induction false} CalibrationIsExact(history: seq<Step>, key: Key)
    ensures key in Run(history).sensors ==> Spans(Run(history).sensors[key], Readings(history, key))
  {
    if history != [] {
      hide Spans, Apply, Recorded;
      var k := |history| - 1;
      var before := Run(history[..k]);
      CalibrationIsExact(history[..k], key);
      if key in before.sensors {
        RowStep(before, history[k], key, Readings(history[..k], key));
      } else {
        NewRow(before, history[k], key);
      }
    }
  }

  // ---------- What a fault can break ----------

  /** The panel's boxes offer only what is registered. */
  predicate Offered(s: State, e: Event) {
    match e
    case ManualSensorAdd(id, _) => id in s.nodes
    case RemoveNode(id) => id in s.nodes
    case UpdateAddress(id, _) => id in s.nodes
    case RemoveSensor(id, ty) => id in s.nodes && Key(id, ty) in s.sensors
    case ResetCalibration(id, ty) => id in s.nodes && Key(id, ty) in s.sensors
    case _ => true
  }

  /** No registered node is on the ignore list, and no node is on it twice. */
  ghost predicate Tidy(s: State) {
    Distinct(s.ignored) && forall id | id in s.ignored :: id !in s.nodes
  }

  ghost predicate Distinct<T>(s: seq<T>) {
    forall i, j | 0 <= i < j < |s| :: s[i] != s[j]
  }

  /** Every sensor's node is registered. */
  ghost predicate Housed(s: State) {
    forall key | key in s.sensors :: key.id in s.nodes
  }

  predicate BreaksTidy(s: State, step: Step) {
    step.event.RemoveNode? && s.checks.ignoreRemoved && DELETE_NODE in step.faults
  }

  ghost predicate BreaksHoused(s: State, step: Step) {
    && step.event.RemoveNode? && DELETE_NODE !in step.faults && DELETE_SENSORS in step.faults
    && exists key | key in s.sensors :: key.id == step.event.id
  }

  lemma {:induction false} RemoveFirstLeaves<T>(s: seq<T>, x: T)
    requires Distinct(s)
    ensures Distinct(RemoveFirst(s, x)) && forall y :: y in RemoveFirst(s, x) <==> y in s && y != x
  {
    if s != [] {
      assert s == [s[0]] + s[1..];
      RemoveFirstLeaves(s[1..], x);
      DistinctTail(s);
      if s[0] != x {
        DistinctCons(s[0], RemoveFirst(s[1..], x));
      }
    }
  }

  lemma DistinctTail<T>(s: seq<T>)
    requires Distinct(s) && s != []
    ensures Distinct(s[1..]) && s[0] !in s[1..]
  {
  }

  lemma DistinctCons<T>(x: T, s: seq<T>)
    requires Distinct(s) && x !in s
    ensures Distinct([x] + s)
  {
  }

  lemma DistinctSnoc<T>(s: seq<T>, x: T)
    requires Distinct(s) && x !in s
    ensures Distinct(s + [x]) && forall y :: y in s + [x] <==> y in s || y == x
  {
  }

  /**
    A step keeps registered nodes off the ignore list unless, and only unless, it removes a
    node with the ignore box checked and the deletion fails: the list was extended first.
    */
  lemma TidyExactly(s: State, step: Step)
    requires Tidy(s) && Offered(s, step.event)
    ensures Tidy(Apply(s, step).0) <==> !BreaksTidy(s, step)
  {
    hide AfterCalibration, Distinct, RemoveFirst;
    var e := step.event;
    if e.ManualNodeAdd? {
      RemoveFirstLeaves(s.ignored, e.id);
    } else if e.RemoveNode? {
      DistinctSnoc(s.ignored, e.id);
    } else if e.Restart? {
      NoneDistinct<Id>();
    } else if e.Sensed? {
      CalibrationKeepsNodes(s, e, step.faults);
    }
  }

  lemma NoneDistinct<T>()
    ensures Distinct<T>([])
  {
  }

  lemma CalibrationKeepsNodes(s: State, e: Event, faults: set<Statement>)
    requires e.Sensed?
    ensures
      var t := AfterSensed(s, e, faults).0;
      && t.ignored == s.ignored && t.ignoredSensors == s.ignoredSensors
      && (t.nodes == s.nodes || (e.id !in s.nodes && e.id !in s.ignored && t.nodes == s.nodes[e.id := None]))
      && (t.sensors.Keys == s.sensors.Keys || (e.id in s.nodes && t.sensors.Keys == s.sensors.Keys + {Key(e.id, e.ty)}))
      && (t.sensors.Keys == s.sensors.Keys || t.nodes == s.nodes)
  {
    hide Calibrated;
  }

  /**
    A step keeps every sensor's node registered unless, and only unless, it removes a node
    that has sensors and fails between its two deletions.
    */
  lemma HousedExactly(s: State, step: Step)
    requires Housed(s) && Offered(s, step.event)
    ensures Housed(Apply(s, step).0) <==> !BreaksHoused(s, step)
  {
    hide AfterSensed;
    var e, t := step.event, Apply(s, step).0;
    if e.Sensed? {
      CalibrationKeepsNodes(s, e, step.faults);
      forall key | key in t.sensors ensures key.id in t.nodes {
        assert key in t.sensors.Keys;
      }
    } else if BreaksHoused(s, step) {
      var key :| key in s.sensors && key.id == e.id;
      assert key in t.sensors && key.id !in t.nodes;
    }
  }

  ghost predicate OfferedAll(history: seq<Step>) {
    forall k | 0 <= k < |history| :: Offered(Run(history[..k]), history[k].event)
  }

  /** Every run in which no removal of a node fails half-way keeps the registry consistent. */
  lemma {:induction false} RegistryStaysConsistent(history: seq<Step>)
    requires OfferedAll(history)
    requires forall k | 0 <= k < |history| && history[k].event.RemoveNode? ::
      DELETE_NODE !in history[k].faults && DELETE_SENSORS !in history[k].faults
    ensures Tidy(Run(history)) && Housed(Run(history))
  {
    if history != [] {
      hide Apply, Offered, Tidy, Housed;
      var k := |history| - 1;
      var earlier := history[..k];
      assert forall i | 0 <= i < k :: earlier[..i] == history[..i] && earlier[i] == history[i];
      RegistryStaysConsistent(earlier);
      TidyExactly(Run(earlier), history[k]);
      HousedExactly(Run(earlier), history[k]);
    } else {
      EmptyIsConsistent();
    }
  }

  lemma EmptyIsConsistent()
    ensures Tidy(INITIAL) && Housed(INITIAL)
  {
  }

  // ---------- Forwarding ----------

  predicate SetsAddress(step: Step, id: Id, address: Url) {
    step.event == ManualNodeAdd(id, Some(address)) || step.event == UpdateAddress(id, Some(address))
  }

  lemma AddressStep(s: State, step: Step, id: Id)
    requires id in Apply(s, step).0.nodes && Apply(s, step).0.nodes[id].Some?
    ensures
      var after := Apply(s, step).0;
      SetsAddress(step, id, after.nodes[id].value) || (id in s.nodes && s.nodes[id] == after.nodes[id])
  {
    hide AfterCalibration;
    if step.event.Sensed? {
      CalibrationKeepsNodes(s, step.event, step.faults);
    }
  }

  /** The node has had this address after each of the steps from step k on. */
  ghost predicate HeldSince(history: seq<Step>, k: nat, id: Id, address: Url) {
    forall j | k < j <= |history| :: id in Run(history[..j]).nodes && Run(history[..j]).nodes[id] == Some(address)
  }

  /** A node's address is one the user set for it, and the node has kept it since. */
  lemma {:induction false} AddressWasSet(history: seq<Step>, id: Id) returns (k: nat)
    requires id in Run(history).nodes && Run(history).nodes[id].Some?
    ensures k < |history| && SetsAddress(history[k], id, Run(history).nodes[id].value)
    ensures HeldSince(history, k, id, Run(history).nodes[id].value)
  {
    hide Apply, SetsAddress;
    k := |history| - 1;
    var earlier, a := history[..k], Run(history).nodes[id].value;
    assert history[..|history|] == history;
    AddressStep(Run(earlier), history[k], id);
    if !SetsAddress(history[k], id, a) {
      var last := k;
      k := AddressWasSet(earlier, id);
      forall j | k < j <= |history|
        ensures id in Run(history[..j]).nodes && Run(history[..j]).nodes[id] == Some(a)
      {
        if j <= last { assert history[..j] == earlier[..j]; }
      }
    }
  }

  /**
    A reading is forwarded only while forwarding is not paused, only from a sensor and a node
    registered before it came, and only to the address the user last set for that node: so
    never from a node that was added of itself and has been given no address.
    */
  lemma ForwardedOnlyIf(history: seq<Step>, step: Step) returns (k: nat)
    requires Apply(Run(history), step).1.Forwarded?
    ensures step.event.Sensed? && !Run(history).checks.paused
    ensures step.event.id in Run(history).nodes && Key(step.event.id, step.event.ty) in Run(history).sensors
    ensures
      var address := Apply(Run(history), step).1.address;
      && k < |history| && SetsAddress(history[k], step.event.id, address)
      && HeldSince(history, k, step.event.id, address)
  {
    ForwardStep(Run(history), step);
    hide Apply, SetsAddress, HeldSince;
    k := AddressWasSet(history, step.event.id);
  }

  /** If nothing fails, those are the only reasons for not forwarding a reading. */
  lemma ForwardedIff(s: State, e: Event, address: Url)
    ensures Apply(s, Step(e, {})).1 == Forwarded(address) <==>
      && e.Sensed? && e.id in s.nodes && s.nodes[e.id] == Some(address)
      && Key(e.id, e.ty) in s.sensors && !s.checks.paused
  {
  }

  /** What a node's registration is after a step in which nothing fails. */
  lemma RegisteredIff(s: State, e: Event, id: Id)
    ensures id in Apply(s, Step(e, {})).0.nodes <==>
      if id in s.nodes then !(e.RemoveNode? && e.id == id)
      else
        || (e.ManualNodeAdd? && e.id == id && id != "" && e.address.Some?)
        || (e.Sensed? && e.id == id && s.checks.autoAddNodes && id !in s.ignored)
  {
    hide AfterCalibration;
    if e.Sensed? {
      CalibrationKeepsNodes(s, e, {});
    }
  }

  /** And a sensor's: a node's first reading registers only the node. */
  lemma SensorRegisteredIff(s: State, e: Event, key: Key)
    ensures key in Apply(s, Step(e, {})).0.sensors <==>
      if key in s.sensors then
        !(e.RemoveNode? && e.id == key.id) && !(e.RemoveSensor? && Key(e.id, e.ty) == key)
      else
        || (e.ManualSensorAdd? && Key(e.id, e.ty) == key && key.ty != "")
        || (e.Sensed? && Key(e.id, e.ty) == key && key.id in s.nodes && s.checks.autoAddSensors
            && !Listed(s.ignoredSensors, key))
  {
    hide Calibrated;
  }

  lemma ForwardStep(s: State, step: Step)
    requires Apply(s, step).1.Forwarded?
    ensures step.event.Sensed? && !s.checks.paused
    ensures step.event.id in s.nodes && Key(step.event.id, step.event.ty) in s.sensors
    ensures s.nodes[step.event.id] == Some(Apply(s, step).1.address)
  {
    hide Calibrated;
  }

  // ---------- Ignored nodes ----------

  /** The steps that take a node off the ignore list. */
  predicate Readmits(e: Event, id: Id) {
    e.Restart? || (e.ManualNodeAdd? && e.id == id)
  }

  lemma {:induction false} RemoveFirstKeepsOthers<T>(s: seq<T>, x: T, y: T)
    requires y in s && y != x
    ensures y in RemoveFirst(s, x)
  {
    if s[0] != x && s[0] != y {
      RemoveFirstKeepsOthers(s[1..], x, y);
    }
  }

  lemma IgnoredStep(s: State, step: Step, id: Id)
    requires id in s.ignored && id !in s.nodes && !Readmits(step.event, id)
    ensures
      var (after, outcome) := Apply(s, step);
      && id in after.ignored && id !in after.nodes
      && (step.event.Sensed? && step.event.id == id ==> after == s && !GotThrough(outcome))
  {
    hide AfterCalibration;
    if step.event.Sensed? {
      CalibrationKeepsNodes(s, step.event, step.faults);
    } else if step.event.ManualNodeAdd? {
      RemoveFirstKeepsOthers(s.ignored, step.event.id, id);
    }
  }

  /**
    An ignored node that is not registered stays out, whatever fails, until it is added by
    hand or the session ends.
    */
  lemma {:induction false} IgnoredStaysOut(history: seq<Step>, more: seq<Step>, id: Id)
    requires id in Run(history).ignored && id !in Run(history).nodes
    requires forall k | 0 <= k < |more| :: !Readmits(more[k].event, id)
    ensures id in Run(history + more).ignored && id !in Run(history + more).nodes
  {
    hide Apply;
    if more == [] {
      assert history + more == history;
    } else {
      var k := |more| - 1;
      IgnoredStaysOut(history, more[..k], id);
      assert (history + more)[..|history| + k] == history + more[..k];
      IgnoredStep(Run(history + more[..k]), more[k], id);
    }
  }

  // ---------- Ignored sensors ----------

  predicate ReadmitsSensor(e: Event, key: Key) {
    e.Restart? || (e.ManualSensorAdd? && SameSensor(Key(e.id, e.ty), key))
  }

  lemma SameAsBoth(a: Key, b: Key, c: Key)
    requires SameSensor(a, b) && SameSensor(a, c)
    ensures SameSensor(b, c)
  {
  }

  lemma {:induction false} UnlistKeepsOthers(list: seq<Key>, gone: Key, key: Key)
    requires Listed(list, key) && !SameSensor(gone, key)
    ensures Listed(Unlist(list, gone), key)
    decreases |list|
  {
    hide SameText;
    var i :| 0 <= i < |list| && SameSensor(list[i], key);
    if SameSensor(list[0], gone) {
      if i == 0 {
        SameAsBoth(list[0], gone, key);
      }
      assert SameSensor(list[1..][i - 1], key);
    } else if i == 0 {
      assert SameSensor(Unlist(list, gone)[0], key);
    } else {
      assert SameSensor(list[1..][i - 1], key);
      UnlistKeepsOthers(list[1..], gone, key);
      var j :| 0 <= j < |Unlist(list[1..], gone)| && SameSensor(Unlist(list[1..], gone)[j], key);
      assert SameSensor(Unlist(list, gone)[j + 1], key);
    }
  }

  lemma ListedMore(list: seq<Key>, more: Key, key: Key)
    requires Listed(list, key)
    ensures Listed(list + [more], key)
  {
    var i :| 0 <= i < |list| && SameSensor(list[i], key);
    assert SameSensor((list + [more])[i], key);
  }

  lemma IgnoredSensorStep(s: State, step: Step, key: Key)
    requires Listed(s.ignoredSensors, key) && key !in s.sensors && !ReadmitsSensor(step.event, key)
    ensures
      var after := Apply(s, step).0;
      Listed(after.ignoredSensors, key) && key !in after.sensors
  {
    hide Calibrated, Listed, Unlist, SameText;
    var e := step.event;
    if e.RemoveSensor? {
      ListedMore(s.ignoredSensors, Key(e.id, e.ty), key);
    } else if e.ManualSensorAdd? {
      UnlistKeepsOthers(s.ignoredSensors, Key(e.id, e.ty), key);
      SameAsItself(key);
    }
  }

  lemma SameAsItself(key: Key)
    ensures SameSensor(key, key)
  {
  }

  /**
    An ignored sensor that is not registered stays out, whatever fails, until a sensor of
    that name, in any case, is added by hand or the session ends.
    */
  lemma {:induction false} IgnoredSensorStaysOut(history: seq<Step>, more: seq<Step>, key: Key)
    requires Listed(Run(history).ignoredSensors, key) && key !in Run(history).sensors
    requires forall k | 0 <= k < |more| :: !ReadmitsSensor(more[k].event, key)
    ensures Listed(Run(history + more).ignoredSensors, key) && key !in Run(history + more).sensors
  {
    hide Apply, Listed, ReadmitsSensor;
    if more == [] {
      assert history + more == history;
    } else {
      var k := |more| - 1;
      IgnoredSensorStaysOut(history, more[..k], key);
      assert (history + more)[..|history| + k] == history + more[..k];
      IgnoredSensorStep(Run(history + more[..k]), more[k], key);
    }
  }

  // ---------- What a step leaves alone ----------

  /** A step that neither names a sensor nor removes its node leaves its row as it was. */
  lemma OtherRowsStay(s: State, step: Step, key: Key)
    requires !(step.event.RemoveNode? && step.event.id == key.id)
    requires
      var e := step.event;
      (e.Sensed? || e.ManualSensorAdd? || e.RemoveSensor? || e.ResetCalibration?) ==> Key(e.id, e.ty) != key
    ensures
      var after := Apply(s, step).0;
      (key in after.sensors <==> key in s.sensors) && (key in s.sensors ==> after.sensors[key] == s.sensors[key])
  {
    hide Calibrated, Listed, Unlist;
  }

  /** A step that does not name a node leaves its registration and address as they were. */
  lemma OtherNodesStay(s: State, step: Step, id: Id)
    requires
      var e := step.event;
      (e.Sensed? || e.ManualNodeAdd? || e.RemoveNode? || e.UpdateAddress?) ==> e.id != id
    ensures
      var after := Apply(s, step).0;
      (id in after.nodes <==> id in s.nodes) && (id in s.nodes ==> after.nodes[id] == s.nodes[id])
  {
    hide AfterCalibration, Listed, Unlist;
    if step.event.Sensed? {
      CalibrationKeepsNodes(s, step.event, step.faults);
    }
  }

  // ---------- The panel ----------

  /** Each handler does to the tables and lists, statement by statement, what Apply says. */
  class ControlPanel {
    var nodes: map<Id, Option<Url>>
    var sensors: map<Key, Cal>
    var ignoreNodeList: seq<Id>
    var ignoreSensorList: seq<Key>
    var checks: Checks

    function View(): State
      reads this
    {
      State(nodes, sensors, ignoreNodeList, ignoreSensorList, checks)
    }

    constructor ()
      ensures View() == INITIAL
      ensures nodes == map[] && sensors == map[] && ignoreNodeList == [] && ignoreSensorList == []
      ensures checks == Checks(false, false, false, false, false, false)
    {
      nodes := map[];
      sensors := map[];
      ignoreNodeList := [];
      ignoreSensorList := [];
      checks := UNCHECKED;
    }

    /** Widen the calibration of a registered sensor by a reading. */
    method Calibrate(key: Key, value: int, faults: set<Statement>) returns (failure: Option<Statement>)
      requires key in sensors
      modifies this`sensors
      ensures (View(), failure) == AfterCalibration(old(View()), key, value, faults)
    {
      if !checks.calibrate {
        return None;
      }
      if SELECT_CALIBRATION in faults {
        return Some(SELECT_CALIBRATION);
      }
      var min, max := sensors[key].min, sensors[key].max;
      if min.Some? && max.Some? {
        if value < min.value {
          if UPDATE_MIN in faults {
            assert sensors == old(sensors)[key := sensors[key]];
            return Some(UPDATE_MIN);
          }
          sensors := sensors[key := sensors[key].(min := Some(value))];
        }
        if value > max.value {
          if UPDATE_MAX in faults {
            assert sensors == old(sensors)[key := sensors[key]];
            return Some(UPDATE_MAX);
          }
          sensors := sensors[key := sensors[key].(max := Some(value))];
        }
      } else if min.None? && max.None? {
        if UPDATE_BOTH in faults {
          assert sensors == old(sensors)[key := sensors[key]];
          return Some(UPDATE_BOTH);
        }
        sensors := sensors[key := Cal(Some(value), Some(value))];
      }
      assert sensors == old(sensors)[key := sensors[key]];
      return None;
    }

    /** A sensor's reading arrives. */
    method Sensed(id: Id, ty: string, value: int, faults: set<Statement>) returns (outcome: Outcome)
      modifies this
      ensures (View(), outcome) == Apply(old(View()), Step(Event.Sensed(id, ty, value), faults))
    {
      if SELECT_NODE in faults {
        return Failed(SELECT_NODE);
      }
      if id !in nodes {
        if !checks.autoAddNodes {
          return NodeUnknown;
        }
        if id in ignoreNodeList {
          return NodeIgnored;
        }
        if INSERT_NODE in faults {
          return Failed(INSERT_NODE);
        }
        nodes := nodes[id := None];
        return NodeAdded;
      }
      if SELECT_SENSORS in faults {
        return Failed(SELECT_SENSORS);
      }
      if Key(id, ty) !in sensors && !checks.autoAddSensors {
        return SensorUnknown;
      } else if Key(id, ty) !in sensors {
        if Listed(ignoreSensorList, Key(id, ty)) {
          return SensorIgnored;
        }
        if INSERT_SENSOR in faults {
          return Failed(INSERT_SENSOR);
        }
        sensors := sensors[Key(id, ty) := Cal(None, None)];
        return SensorAdded;
      }
      var failure := Calibrate(Key(id, ty), value, faults);
      if failure.Some? {
        return Failed(failure.value);
      }
      if checks.paused {
        return Paused;
      }
      if nodes[id].None? {
        return NoAddress;
      }
      return Forwarded(nodes[id].value);
    }

    method ManualNodeAdd(id: Id, address: Option<Url>, faults: set<Statement>) returns (outcome: Outcome)
      modifies this
      ensures (View(), outcome) == Apply(old(View()), Step(Event.ManualNodeAdd(id, address), faults))
    {
      if |id| == 0 {
        return Refused;
      }
      if SELECT_NODE in faults {
        return Failed(SELECT_NODE);
      }
      if id in nodes {
        return Refused;
      }
      if address.None? {
        return Refused;
      }
      if id in ignoreNodeList {
        ignoreNodeList := RemoveFirst(ignoreNodeList, id);
      } else {
        RemoveFirstOfNone(ignoreNodeList, id);
      }
      if INSERT_NODE in faults {
        return Failed(INSERT_NODE);
      }
      nodes := nodes[id := address];
      return Done;
    }

    method ManualSensorAdd(id: Id, ty: string, faults: set<Statement>) returns (outcome: Outcome)
      modifies this
      ensures (View(), outcome) == Apply(old(View()), Step(Event.ManualSensorAdd(id, ty), faults))
    {
      if |ty| == 0 {
        return Refused;
      }
      if SELECT_SENSORS in faults {
        return Failed(SELECT_SENSORS);
      }
      if Key(id, ty) in sensors {
        return Refused;
      }
      if INSERT_SENSOR in faults {
        return Failed(INSERT_SENSOR);
      }
      sensors := sensors[Key(id, ty) := Cal(None, None)];
      if Listed(ignoreSensorList, Key(id, ty)) {
        ignoreSensorList := Unlist(ignoreSensorList, Key(id, ty));
      } else {
        UnlistNone(ignoreSensorList, Key(id, ty));
      }
      return Done;
    }

    method RemoveNode(id: Id, faults: set<Statement>) returns (outcome: Outcome)
      modifies this
      ensures (View(), outcome) == Apply(old(View()), Step(Event.RemoveNode(id), faults))
    {
      if checks.ignoreRemoved {
        ignoreNodeList := ignoreNodeList + [id];
      }
      if DELETE_NODE in faults {
        return Failed(DELETE_NODE);
      }
      nodes := nodes - {id};
      if DELETE_SENSORS in faults {
        return Failed(DELETE_SENSORS);
      }
      sensors := WithoutNode(sensors, id);
      checks := checks.(ignoreRemoved := false);
      return Done;
    }

    method RemoveSensor(id: Id, ty: string, faults: set<Statement>) returns (outcome: Outcome)
      modifies this
      ensures (View(), outcome) == Apply(old(View()), Step(Event.RemoveSensor(id, ty), faults))
    {
      if checks.ignoreRemovedSensor {
        ignoreSensorList := ignoreSensorList + [Key(id, ty)];
      }
      if DELETE_SENSOR in faults {
        return Failed(DELETE_SENSOR);
      }
      sensors := sensors - {Key(id, ty)};
      checks := checks.(ignoreRemovedSensor := false);
      return Done;
    }

    method ResetCalibration(id: Id, ty: string, faults: set<Statement>) returns (outcome: Outcome)
      modifies this
      ensures (View(), outcome) == Apply(old(View()), Step(Event.ResetCalibration(id, ty), faults))
    {
      if UPDATE_RESET in faults {
        return Failed(UPDATE_RESET);
      }
      if Key(id, ty) in sensors {
        sensors := sensors[Key(id, ty) := Cal(None, None)];
      }
      return Done;
    }

    method UpdateAddress(id: Id, address: Option<Url>, faults: set<Statement>) returns (outcome: Outcome)
      modifies this
      ensures (View(), outcome) == Apply(old(View()), Step(Event.UpdateAddress(id, address), faults))
    {
      if address.None? {
        return Refused;
      }
      if UPDATE_ADDRESS in faults {
        return Failed(UPDATE_ADDRESS);
      }
      if id in nodes {
        nodes := nodes[id := address];
      }
      return Done;
    }
  }

  lemma UnlistNone(list: seq<Key>, key: Key)
    requires !Listed(list, key)
    ensures Unlist(list, key) == list
  {
    if list != [] {
      assert !SameSensor(list[0], key);
      assert forall i | 0 <= i < |list[1..]| :: list[1..][i] == list[i + 1] && !SameSensor(list[i + 1], key);
      UnlistNone(list[1..], key);
    }
  }

  lemma RemoveFirstOfNone<T>(s: seq<T>, x: T)
    requires x !in s
    ensures RemoveFirst(s, x) == s
  {
  }
}

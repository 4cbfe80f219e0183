/**
  The control panel's steps told from their effects: exactly when a node has an address, a
  row a calibration, a list an entry, a check box its value and a handler its outcome; and
  which statements a handler sends, in order, with what is left behind when one of them fails.
  */
module RegistryEffects {
  import opened Options
  import opened Registry

  // ---------- If nothing fails: the tables ----------

  /** A node has an address exactly if the step gives it that one, or it had it and keeps it. */
  lemma AddressIff(s: State, e: Event, id: Id, address: Url)
    ensures
      var after := Apply(s, Step(e, {})).0;
      id in after.nodes && after.nodes[id] == Some(address) <==>
        || (e == ManualNodeAdd(id, Some(address)) && id != "" && id !in s.nodes)
        || (e == UpdateAddress(id, Some(address)) && id in s.nodes)
        || (&& id in s.nodes && s.nodes[id] == Some(address)
            && e != RemoveNode(id) && !(e.UpdateAddress? && e.id == id && e.address.Some?))
  {
    hide AfterCalibration;
    if e.Sensed? {
      CalibrationKeepsNodes(s, e, {});
    }
  }

  /** A row widened by a reading: both columns filled if both were empty, otherwise its bounds moved just enough. */
  predicate Widened(before: Cal, after: Cal, value: int) {
    if before.min.Some? && before.max.Some? then
      && after.min.Some? && after.min.value <= value && after.min.value <= before.min.value
      && after.min.value in {value, before.min.value}
      && after.max.Some? && after.max.value >= value && after.max.value >= before.max.value
      && after.max.value in {value, before.max.value}
    else if before.min.None? && before.max.None? then after == Cal(Some(value), Some(value))
    else after == before
  }

  /**
    What a row holds after a step: nothing if it is new or reset; widened if the step is a
    reading of it from a registered node, with calibration on; otherwise what it held.
    */
  lemma RowAfter(s: State, e: Event, key: Key)
    requires key in Apply(s, Step(e, {})).0.sensors
    ensures
      var row := Apply(s, Step(e, {})).0.sensors[key];
      if key !in s.sensors || e == ResetCalibration(key.id, key.ty) then row == Cal(None, None)
      else if e.Sensed? && Key(e.id, e.ty) == key && key.id in s.nodes && s.checks.calibrate then
        Widened(s.sensors[key], row, e.value)
      else row == s.sensors[key]
  {
    hide Calibrated;
    if key in s.sensors && e.Sensed? {
      CalibratedWidens(s.sensors[key], e.value);
    }
  }

  lemma CalibratedWidens(c: Cal, value: int)
    ensures Widened(c, Calibrated(c, value, {}).0, value) && Calibrated(c, value, {}).1 == None
  {
  }

  // ---------- If nothing fails: the lists and the check boxes ----------

  lemma {:induction false} RemoveFirstTakesOne<T>(s: seq<T>, x: T)
    ensures multiset(RemoveFirst(s, x)) == multiset(s) - multiset{x}
  {
    if s != [] {
      assert s == [s[0]] + s[1..];
      RemoveFirstTakesOne(s[1..], x);
    }
  }

  /**
    How often a node is on the ignore list after a step: once more if it is removed with the box
    checked, once less if it is added by hand, not at all after a restart, otherwise as often as before.
    */
  lemma IgnoredCount(s: State, e: Event, id: Id)
    ensures
      var before, after := multiset(s.ignored)[id], multiset(Apply(s, Step(e, {})).0.ignored)[id];
      after ==
        if e.Restart? then 0
        else if e == RemoveNode(id) && s.checks.ignoreRemoved then before + 1
        else if e.ManualNodeAdd? && e.id == id && Done == Apply(s, Step(e, {})).1 && before > 0 then before - 1
        else before
  {
    hide AfterSensed, RemoveFirst;
    if e.Sensed? {
      CalibrationKeepsNodes(s, e, {});
    } else if e.ManualNodeAdd? {
      RemoveFirstCount(s.ignored, e.id, id);
    }
  }

  lemma RemoveFirstCount<T>(s: seq<T>, x: T, y: T)
    ensures multiset(RemoveFirst(s, x))[y] == multiset(s)[y] - if x == y && multiset(s)[y] > 0 then 1 else 0
  {
    RemoveFirstTakesOne(s, x);
  }

  /** Two letters apart in case, or the same character. */
  predicate CaseApart(a: char, b: char) {
    || a == b
    || ('A' <= a <= 'Z' && b as int == a as int + 32)
    || ('A' <= b <= 'Z' && a as int == b as int + 32)
  }

  /** Two entries of the list of ignored sensors are the same exactly if their letters differ in case only. */
  lemma SameSensorIff(a: Key, b: Key)
    ensures SameSensor(a, b) <==>
      && |a.id| == |b.id| && (forall i | 0 <= i < |a.id| :: CaseApart(a.id[i], b.id[i]))
      && |a.ty| == |b.ty| && (forall i | 0 <= i < |a.ty| :: CaseApart(a.ty[i], b.ty[i]))
  {
    hide CaseApart, Fold;
    SameTextIff(a.id, b.id);
    SameTextIff(a.ty, b.ty);
  }

  lemma SameTextIff(a: string, b: string)
    ensures SameText(a, b) <==> |a| == |b| && forall i | 0 <= i < |a| :: CaseApart(a[i], b[i])
  {
    hide CaseApart, Fold;
    if |a| == |b| {
      forall i | 0 <= i < |a| ensures Fold(a[i]) == Fold(b[i]) <==> CaseApart(a[i], b[i]) {
        FoldIff(a[i], b[i]);
      }
    }
  }

  lemma FoldIff(a: char, b: char)
    ensures Fold(a) == Fold(b) <==> CaseApart(a, b)
  {
    FoldOf(a);
    FoldOf(b);
  }

  lemma FoldOf(c: char)
    ensures Fold(c) as int == if 'A' <= c <= 'Z' then c as int + 32 else c as int
  {
  }

  /** How many entries of the list count as a sensor. */
  function Entries(list: seq<Key>, key: Key): nat {
    if list == [] then 0 else (if SameSensor(list[0], key) then 1 else 0) + Entries(list[1..], key)
  }

  lemma {:induction false} EntriesSnoc(list: seq<Key>, last: Key, key: Key)
    ensures Entries(list + [last], key) == Entries(list, key) + if SameSensor(last, key) then 1 else 0
  {
    hide SameSensor;
    if list == [] {
      assert list + [last] == [last] && [last][1..] == [];
    } else {
      assert (list + [last])[1..] == list[1..] + [last];
      EntriesSnoc(list[1..], last, key);
    }
  }

  lemma SameIsSame(a: Key, b: Key, key: Key)
    requires SameSensor(a, b)
    ensures SameSensor(a, key) <==> SameSensor(b, key)
  {
  }

  lemma {:induction false} ListedIff(list: seq<Key>, key: Key)
    ensures Listed(list, key) <==> Entries(list, key) > 0
  {
    hide SameSensor;
    if list != [] {
      ListedIff(list[1..], key);
      assert forall i | 0 <= i < |list| - 1 :: list[1..][i] == list[i + 1];
      if i :| 0 <= i < |list| && SameSensor(list[i], key) {
        if i > 0 {
          assert SameSensor(list[1..][i - 1], key);
        }
      }
    }
  }

  lemma {:induction false} UnlistTakesOne(list: seq<Key>, gone: Key, key: Key)
    ensures Entries(Unlist(list, gone), key)
         == Entries(list, key) - if SameSensor(gone, key) && Entries(list, key) > 0 then 1 else 0
    decreases |list|
  {
    hide SameSensor;
    if list != [] {
      if SameSensor(list[0], gone) {
        SameIsSame(list[0], gone, key);
      } else {
        var rest := Unlist(list[1..], gone);
        UnlistTakesOne(list[1..], gone, key);
        assert ([list[0]] + rest)[1..] == rest;
        if SameSensor(gone, key) && SameSensor(list[0], key) {
          SameBoth(list[0], gone, key);
        }
      }
    }
  }

  lemma SameBoth(a: Key, b: Key, key: Key)
    requires SameSensor(a, key) && SameSensor(b, key)
    ensures SameSensor(a, b)
  {
  }

  /** The same for the list of ignored sensors, whose entries are compared without regard to case. */
  lemma IgnoredSensorCount(s: State, e: Event, key: Key)
    ensures Listed(s.ignoredSensors, key) <==> Entries(s.ignoredSensors, key) > 0
    ensures
      var before, after := Entries(s.ignoredSensors, key), Entries(Apply(s, Step(e, {})).0.ignoredSensors, key);
      after ==
        if e.Restart? then 0
        else if e.RemoveSensor? && SameSensor(Key(e.id, e.ty), key) && s.checks.ignoreRemovedSensor then before + 1
        else if && e.ManualSensorAdd? && SameSensor(Key(e.id, e.ty), key) && e.ty != "" && Key(e.id, e.ty) !in s.sensors
                && before > 0 then before - 1
        else before
  {
    hide Calibrated, Unlist, SameSensor, Listed, Entries;
    ListedIff(s.ignoredSensors, key);
    if e.RemoveSensor? {
      EntriesSnoc(s.ignoredSensors, Key(e.id, e.ty), key);
    } else if e.ManualSensorAdd? {
      UnlistTakesOne(s.ignoredSensors, Key(e.id, e.ty), key);
    } else if e.Restart? {
      NoEntries(key);
    }
  }

  lemma NoEntries(key: Key)
    ensures Entries([], key) == 0
  {
  }

  /** Only the user's settings and the two removals, which uncheck their own box, change a check box. */
  lemma ChecksAfter(s: State, e: Event)
    ensures Apply(s, Step(e, {})).0.checks ==
      match e
      case SetChecks(checks) => checks
      case Restart(checks) => checks
      case RemoveNode(_) => s.checks.(ignoreRemoved := false)
      case RemoveSensor(_, _) => s.checks.(ignoreRemovedSensor := false)
      case _ => s.checks
  {
    hide Calibrated, Listed, Unlist;
  }

  // ---------- If nothing fails: the outcomes ----------

  /** Why a reading stops where it does; ForwardedIff has the one case that is left. */
  lemma SensedOutcome(s: State, e: Event)
    requires e.Sensed?
    ensures
      var outcome := Apply(s, Step(e, {})).1;
      var known, key := e.id in s.nodes, Key(e.id, e.ty);
      && (outcome == NodeUnknown <==> !known && !s.checks.autoAddNodes)
      && (outcome == NodeIgnored <==> !known && s.checks.autoAddNodes && e.id in s.ignored)
      && (outcome == NodeAdded <==> !known && s.checks.autoAddNodes && e.id !in s.ignored)
      && (outcome == SensorUnknown <==> known && key !in s.sensors && !s.checks.autoAddSensors)
      && (outcome == SensorIgnored <==>
            known && key !in s.sensors && s.checks.autoAddSensors && Listed(s.ignoredSensors, key))
      && (outcome == SensorAdded <==>
            known && key !in s.sensors && s.checks.autoAddSensors && !Listed(s.ignoredSensors, key))
      && (outcome == Paused <==> known && key in s.sensors && s.checks.paused)
      && (outcome == NoAddress <==> known && key in s.sensors && !s.checks.paused && s.nodes[e.id] == None)
  {
    if Key(e.id, e.ty) in s.sensors {
      CalibratedWidens(s.sensors[Key(e.id, e.ty)], e.value);
    }
    hide Calibrated, Listed;
  }

  /** What the panel refuses, changing nothing; everything else the user asks for is done. */
  lemma RefusedIff(s: State, e: Event)
    requires !e.Sensed?
    ensures
      var (after, outcome) := Apply(s, Step(e, {}));
      && outcome in {Refused, Done}
      && (outcome == Refused ==> after == s)
      && (outcome == Refused <==>
            || (e.ManualNodeAdd? && (e.id == "" || e.id in s.nodes || e.address == None))
            || (e.ManualSensorAdd? && (e.ty == "" || Key(e.id, e.ty) in s.sensors))
            || (e.UpdateAddress? && e.address == None))
  {
    hide Unlist;
  }

  // ---------- If a statement fails ----------

  /** The updates that take a reading into a row. */
  function Updates(c: Cal, value: int): seq<Statement> {
    if c.min.Some? && c.max.Some? then
      (if value < c.min.value then [UPDATE_MIN] else []) + (if value > c.max.value then [UPDATE_MAX] else [])
    else if c == Cal(None, None) then [UPDATE_BOTH]
    else []
  }

  /** The statements for the row of a registered sensor. */
  function ForRow(s: State, key: Key, value: int): seq<Statement>
    requires key in s.sensors
  {
    if s.checks.calibrate then [SELECT_CALIBRATION] + Updates(s.sensors[key], value) else []
  }

  /** The statements for a sensor of a registered node. */
  function ForSensor(s: State, key: Key, value: int): seq<Statement> {
    [SELECT_SENSORS]
    + if key in s.sensors then ForRow(s, key, value)
      else if s.checks.autoAddSensors && !Listed(s.ignoredSensors, key) then [INSERT_SENSOR]
      else []
  }

  /** The statements a handler sends to the database if none of them fails, in order. */
  function Statements(s: State, e: Event): seq<Statement> {
    match e
    case Sensed(id, ty, value) =>
      [SELECT_NODE]
      + if id in s.nodes then ForSensor(s, Key(id, ty), value)
        else if s.checks.autoAddNodes && id !in s.ignored then [INSERT_NODE]
        else []
    case ManualNodeAdd(id, address) =>
      if id == "" then [] else [SELECT_NODE] + if id !in s.nodes && address.Some? then [INSERT_NODE] else []
    case ManualSensorAdd(id, ty) =>
      if ty == "" then [] else [SELECT_SENSORS] + if Key(id, ty) !in s.sensors then [INSERT_SENSOR] else []
    case RemoveNode(_) => [DELETE_NODE] + [DELETE_SENSORS]
    case RemoveSensor(_, _) => [DELETE_SENSOR]
    case ResetCalibration(_, _) => [UPDATE_RESET]
    case UpdateAddress(_, address) => if address.Some? then [UPDATE_ADDRESS] else []
    case SetChecks(_) => []
    case Restart(_) => []
  }

  /** The first of some statements that fails. */
  function FirstFailing(statements: seq<Statement>, faults: set<Statement>): Option<Statement> {
    if statements == [] then None
    else if statements[0] in faults then Some(statements[0])
    else FirstFailing(statements[1..], faults)
  }

  lemma FailsOf(first: Statement, rest: seq<Statement>, faults: set<Statement>)
    ensures FirstFailing([first] + rest, faults) == if first in faults then Some(first) else FirstFailing(rest, faults)
  {
    assert ([first] + rest)[1..] == rest;
  }

  lemma FailsOfOne(only: Statement, faults: set<Statement>)
    ensures FirstFailing([only], faults) == if only in faults then Some(only) else None
  {
    assert [only][1..] == [];
  }

  /**
    A handler fails with the first statement it sends that fails; if none does, the step is
    what it is without faults, whatever other statements would fail.
    */
  lemma FailsWith(s: State, step: Step)
    ensures
      match FirstFailing(Statements(s, step.event), step.faults)
      case Some(f) => Apply(s, step).1 == Failed(f)
      case None => Apply(s, step) == Apply(s, Step(step.event, {})) && !Apply(s, step).1.Failed?
  {
    var e, faults := step.event, step.faults;
    hide Unlist, RemoveFirst, WithoutNode, FirstFailing, AfterCalibration, ForRow, Listed;
    forall f { FailsOfOne(f, faults); }
    match e
    case Sensed(id, ty, value) =>
      ReadingFailsWith(s, step);
    case RemoveNode(_) =>
      FailsOf(DELETE_NODE, [DELETE_SENSORS], faults);
    case ManualNodeAdd(id, address) =>
      FailsOf(SELECT_NODE, if id !in s.nodes && address.Some? then [INSERT_NODE] else [], faults);
      NoneFails(faults);
    case ManualSensorAdd(id, ty) =>
      FailsOf(SELECT_SENSORS, if Key(id, ty) !in s.sensors then [INSERT_SENSOR] else [], faults);
      NoneFails(faults);
    case _ =>
      NoneFails(faults);
  }

  lemma NoneFails(faults: set<Statement>)
    ensures FirstFailing([], faults) == None
  {
  }

  lemma ReadingFailsWith(s: State, step: Step)
    requires step.event.Sensed?
    ensures
      match FirstFailing(Statements(s, step.event), step.faults)
      case Some(f) => Apply(s, step).1 == Failed(f)
      case None => Apply(s, step) == Apply(s, Step(step.event, {})) && !Apply(s, step).1.Failed?
  {
    var e, faults := step.event, step.faults;
    var key := Key(e.id, e.ty);
    hide FirstFailing, AfterCalibration, Listed, ForRow;
    FailsOfOne(INSERT_NODE, faults);
    FailsOfOne(INSERT_SENSOR, faults);
    NoneFails(faults);
    FailsOf(SELECT_NODE, Statements(s, e)[1..], faults);
    FailsOf(SELECT_SENSORS, ForSensor(s, key, e.value)[1..], faults);
    if key in s.sensors {
      RowFailsWith(s, key, e.value, faults);
    }
  }

  lemma RowFailsWith(s: State, key: Key, value: int, faults: set<Statement>)
    requires key in s.sensors
    ensures FirstFailing(ForRow(s, key, value), faults) == AfterCalibration(s, key, value, faults).1
    ensures
      AfterCalibration(s, key, value, faults).1 == None ==>
        AfterCalibration(s, key, value, faults) == AfterCalibration(s, key, value, {})
  {
    hide FirstFailing, Updates, Calibrated;
    FailsOf(SELECT_CALIBRATION, Updates(s.sensors[key], value), faults);
    UpdatesFailWith(s.sensors[key], value, faults);
    NoneFails(faults);
  }

  lemma UpdatesFailWith(c: Cal, value: int, faults: set<Statement>)
    ensures FirstFailing(Updates(c, value), faults) == Calibrated(c, value, faults).1
    ensures Calibrated(c, value, faults).1 == None ==> Calibrated(c, value, faults) == Calibrated(c, value, {})
  {
    hide FirstFailing;
    var none: seq<Statement> := [];
    var lower, upper := [UPDATE_MIN], [UPDATE_MAX];
    assert none + none == none && none + upper == upper && lower + none == lower;
    FailsOf(UPDATE_MIN, upper, faults);
    FailsOfOne(UPDATE_MIN, faults);
    FailsOfOne(UPDATE_MAX, faults);
    FailsOfOne(UPDATE_BOTH, faults);
    NoneFails(faults);
  }

  /** What a step that fails with f leaves of the step as a whole. */
  ghost predicate Leaves(s: State, e: Event, f: Statement, whole: State, after: State) {
    && after.checks == s.checks
    && after.nodes == (if f == DELETE_SENSORS then whole.nodes else s.nodes)
    && (if f == UPDATE_MAX && e.Sensed? then
          var key := Key(e.id, e.ty);
          && key in s.sensors && key in whole.sensors
          && after.sensors == s.sensors[key := Cal(whole.sensors[key].min, s.sensors[key].max)]
        else after.sensors == s.sensors)
    && after.ignored == (if e.RemoveNode? || (e.ManualNodeAdd? && f == INSERT_NODE) then whole.ignored else s.ignored)
    && after.ignoredSensors == (if e.RemoveSensor? then whole.ignoredSensors else s.ignoredSensors)
  }

  /**
    What a failure leaves behind. The tables are as before, but for the node whose sensors
    could not be deleted and for a lower bound already moved; the check boxes are as before;
    a list has already been changed if the handler changes it before the statement.
    */
  lemma LeftBehind(s: State, step: Step)
    requires Apply(s, step).1.Failed?
    ensures Leaves(s, step.event, Apply(s, step).1.what, Apply(s, Step(step.event, {})).0, Apply(s, step).0)
  {
    if step.event.Sensed? {
      ReadingLeftBehind(s, step);
    } else if step.event.RemoveNode? {
      RemovalLeftBehind(s, step);
    } else {
      hide AfterSensed, AfterRemoveNode, Unlist, RemoveFirst;
    }
  }

  lemma RemovalLeftBehind(s: State, step: Step)
    requires step.event.RemoveNode? && Apply(s, step).1.Failed?
    ensures Leaves(s, step.event, Apply(s, step).1.what, Apply(s, Step(step.event, {})).0, Apply(s, step).0)
  {
    hide WithoutNode;
  }

  lemma ReadingLeftBehind(s: State, step: Step)
    requires step.event.Sensed? && Apply(s, step).1.Failed?
    ensures Leaves(s, step.event, Apply(s, step).1.what, Apply(s, Step(step.event, {})).0, Apply(s, step).0)
  {
    hide Listed;
  }
}

/** What every run of the controller preserves, resets included. */
module ControllerInv {
  import opened RegistryModel
  import opened RegistryInv
  import opened ValveModel
  import opened ValveInv
  import opened ControllerModel

  ghost predicate Safe(s: State) { Ok(s.v) && TableOk(s.r) && s.rtcCounter <= 24 }

  /** Factory-fresh: erased flash, first power-up. */
  function Factory(factory: bool): State { State(Boot(PowerOn(0, factory), false), Blank(), 0, 0) }

  lemma FactorySafe(factory: bool)
    ensures Safe(Factory(factory)) && Roles(Factory(factory).r)
  {
    BlankInv();
    BootKeeps(0, factory, false);
  }

  /* ---- Valve part ---- */

  lemma CommandOk(v: Valve, r: Reg, d: nat, command: int, data: int)
    requires Ok(v) && Shape(r)
    ensures Ok(CommandValve(v, r, d, command, data))
    ensures command != 5 ==> Keeps(v, CommandValve(v, r, d, command, data))
    ensures command == 5 ==> CommandValve(v, r, d, command, data) == OpenCommand(v)
  {
    if command == 2 {
      BatteryKeeps(v, d == DoorId(r), data);
    } else if command == 3 {
      LearnCommandSame(v, data);
      SameKeeps(v, LearnCommand(v, data));
    } else if command == 4 {
      WaterReportKeeps(v);
    } else if command == 5 {
      OpenCommandOk(v);
    } else if command == 6 {
      CloseCommandKeeps(v, AnySlaveAlarm(r) && !AnySlaveAlarm(SetSlaveAlarm(r, d, 0)));
    } else if command == 8 {
      DelayCommandSame(v, data);
      SameKeeps(v, DelayCommand(v, data));
    } else {
      assert CommandValve(v, r, d, command, data) == v;
    }
  }

  lemma ReactSame(v: Valve, r: Reg)
    requires Shape(r)
    ensures CoreOf(OfflineReact(v, r)) == CoreOf(v)
  {
    DisableSame(v);
  }

  lemma DataSolveOk(s: State, d: nat, command: int, data: int)
    requires Ok(s.v) && Shape(s.r)
    ensures Ok(DataSolve(s, d, command, data).v)
    ensures command != 5 ==> Keeps(s.v, DataSolve(s, d, command, data).v)
    ensures command == 5 ==> CoreOf(DataSolve(s, d, command, data).v) == CoreOf(OpenCommand(s.v))
  {
    var v1 := CommandValve(s.v, s.r, d, command, data);
    CommandOk(s.v, s.r, d, command, data);
    ReactSame(v1, ClearTime(CommandTable(s.r, d, command, data), d));
  }

  lemma LearnTimerSame(v: Valve)
    ensures CoreOf(v.(t := v.t.(learn := true))) == CoreOf(v)
  {}

  lemma HourOk(s: State, a: bool, b: bool)
    requires Ok(s.v) && Shape(s.r)
    ensures Keeps(s.v, Hour(s, a, b).0.v)
  {
    var v := Exercise(s, a, b);
    DetectKeeps(s.v, a, b);
    assert Keeps(s.v, v);
    EnableKeeps(v, 5);
  }

  /** The commands that lift the lock: an accepted OtherOpen and the full device wipe. */
  ghost predicate Unlocks(s: State, e: Event)
    requires Shape(s.r)
  {
    match e
    case BothKeysHeld => true
    case NormalMessage(from, command, _) => command == 5 && !s.v.learning && Registered(s.r, ToU32(from)) && Normal(s.v)
    case GatewayMessage(from, _, command, data) =>
      command == 2 && data != 0 && Registered(s.r, ToU32(from)) && Normal(s.v)
    case _ => false
  }

  ghost predicate Locked(v: Valve) { v.lastFlag == OTHER_OFF }

  /** What a step does to the valve: sound again, and still locked exactly when it was not unlocked. */
  ghost predicate ValveStep(s: State, e: Event, w: Valve)
    requires Shape(s.r)
  {
    Ok(w) && (Locked(s.v) ==> (Locked(w) <==> !Unlocks(s, e)))
  }

  lemma NormalStep(s: State, from: int, command: int, data: int)
    requires Ok(s.v) && Shape(s.r)
    ensures ValveStep(s, NormalMessage(from, command, data), NormalSolve(s, from, command, data).v)
  {
    var d := ToU32(from);
    if s.v.learning {
      LearnTimerSame(s.v);
      SameKeeps(s.v, NormalSolve(s, from, command, data).v);
    } else if Registered(s.r, d) {
      DataSolveOk(s.(r := SetAlive(s.r, d, 1)), d, command, data);
      OpenCommandOk(s.v);
    } else {
      assert NormalSolve(s, from, command, data) == s;
    }
  }

  lemma GatewayStep(s: State, from: int, device: int, command: int, data: int)
    requires Ok(s.v) && Shape(s.r)
    ensures ValveStep(s, GatewayMessage(from, device, command, data), GatewaySolve(s, from, device, command, data).v)
  {
    GatewayCommandOk(s.v, data);
  }

  lemma RebootStep(s: State, factory: bool)
    requires Ok(s.v) && Shape(s.r)
    ensures ValveStep(s, Reset(factory), Reboot(s, factory).v)
  {
    BootKeeps(s.v.moto, factory, AnySlaveAlarm(Load(s.r.flash)));
  }

  lemma WipeStep(s: State)
    requires Ok(s.v) && Shape(s.r)
    ensures ValveStep(s, BothKeysHeld, Wipe(s).v)
  {}

  /** Every step keeps the valve sound, and the lock holds until an accepted OtherOpen or a wipe. */
  lemma StepValve(s: State, e: Event)
    requires Ok(s.v) && Shape(s.r) && Possible(s, e)
    ensures ValveStep(s, e, Step(s, e).v)
  {
    match e
    case KeyOnDown => KeyOnKeeps(s.v);
    case KeyOffDown(a, b) => KeyOffKeeps(s.v, a, b);
    case KeyOffHeld => KeyOffLongSame(s.v); SameKeeps(s.v, KeyOffLong(s.v));
    case BothKeysHeld => WipeStep(s);
    case LearnTimeout => KeyOffLongSame(s.v); SameKeeps(s.v, LearnExpires(s.v));
    case Act1Fires => ActKeeps(s.v);
    case Act2Fires => ActKeeps(s.v);
    case Det1Fires => Turn1Keeps(s.v);
    case Det2Fires => Turn2Keeps(s.v);
    case DetectFires(a, b) => DetectExpiresKeeps(s.v, a, b);
    case DelayFires => DelayExpiresKeeps(s.v);
    case Edge1 => EdgeSame(s.v); SameKeeps(s.v, CountEdge1(s.v));
    case Edge2 => EdgeSame(s.v); SameKeeps(s.v, CountEdge2(s.v));
    case WaterScan(on, loss) => WaterKeeps(s.v, on, loss);
    case NtcScan(volt1, volt2) => NtcKeeps(s.v, volt1, volt2);
    case HourPassed(a, b) => HourOk(s, a, b);
    case NormalMessage(from, command, data) => NormalStep(s, from, command, data);
    case GatewayMessage(from, device, command, data) => GatewayStep(s, from, device, command, data);
    case Reset(factory) => RebootStep(s, factory);
  }

  /* ---- Table part ---- */

  ghost predicate GatewayDeleted(s: State, e: Event)
    requires Shape(s.r)
  {
    match e
    case GatewayMessage(from, device, command, _) =>
      command == 6 && Registered(s.r, ToU32(from)) && ToU32(device) != 0 && ToU32(device) == GatewayId(s.r)
    case _ => false
  }

  /** Mirror and uniqueness hold again, and the roles exactly unless the gateway was deleted. */
  ghost predicate TableStep(r: Reg, r1: Reg, gatewayDeleted: bool) {
    TableOk(r1) && (Roles(r) ==> (Roles(r1) <==> !gatewayDeleted))
  }

  lemma SameSlotsStep(r: Reg, r1: Reg)
    requires TableOk(r) && SameSlots(r, r1)
    ensures TableStep(r, r1, false)
  {}

  lemma ClearTimeSame(r: Reg, d: nat)
    requires Mirror(r)
    ensures SameSlots(r, ClearTime(r, d))
  {}

  lemma TickSame(r: Reg)
    requires Mirror(r)
    ensures SameSlots(r, Tick(r)) && SameSlots(r, ClearAll(r))
  {}

  lemma CommandTableSame(r: Reg, d: nat, command: int, data: int)
    requires Mirror(r)
    ensures SameSlots(r, CommandTable(r, d, command, data))
  {
    SetSlaveAlarmInv(r, d, 1);
    SetSlaveAlarmInv(r, d, 0);
  }

  lemma HourTable(s: State, a: bool, b: bool)
    requires TableOk(s.r)
    ensures SameSlots(s.r, Hour(s, a, b).0.r)
  {
    TickSame(s.r);
    var r := Tick(s.r);
    SweepInv(r, r.num);
    TickSame(Sweep(r, r.num).0);
  }

  lemma NormalTable(s: State, from: int, command: int, data: int)
    requires TableOk(s.r) && IsLong(from)
    ensures TableStep(s.r, NormalSolve(s, from, command, data).r, false)
  {
    var d := ToU32(from);
    SetAliveInv(s.r, d, 1);
    var r1 := SetAlive(s.r, d, 1);
    SameSlotsStep(s.r, r1);
    if s.v.learning {
      if command == 3 { LearnTable(r1, from, data); }
    } else if Registered(s.r, d) {
      DataTable(s.(r := r1), d, command, data);
    } else {
      SameSlotsStep(s.r, s.r);
    }
  }

  lemma LearnTable(r: Reg, from: int, data: int)
    requires TableOk(r) && IsLong(from)
    ensures TableStep(r, DeviceLearn(r, from, data), false)
  {
    var d := ToU32(from);
    if data == 1 && !Registered(r, d) {
      LearnInv(r, from);
    } else if data == 2 && Registered(r, d) {
      SetAliveInv(r, d, 1);
      SameSlotsStep(r, SetAlive(r, d, 1));
    } else {
      SameSlotsStep(r, r);
    }
  }

  lemma DataTable(s: State, d: nat, command: int, data: int)
    requires TableOk(s.r)
    ensures TableStep(s.r, DataSolve(s, d, command, data).r, false)
  {
    CommandTableSame(s.r, d, command, data);
    ClearTimeSame(CommandTable(s.r, d, command, data), d);
    SameSlotsStep(s.r, DataSolve(s, d, command, data).r);
  }

  lemma GatewayTable(s: State, from: int, device: int, command: int, data: int)
    requires TableOk(s.r)
    ensures var e := GatewayMessage(from, device, command, data);
      TableStep(s.r, GatewaySolve(s, from, device, command, data).r, GatewayDeleted(s, e))
  {
    if Registered(s.r, ToU32(from)) && command == 6 {
      DeleteInv(s.r, ToU32(device));
    } else {
      SameSlotsStep(s.r, s.r);
    }
  }

  lemma RebootTable(s: State, factory: bool)
    requires TableOk(s.r)
    ensures SameSlots(s.r, Reboot(s, factory).r)
  {
    ReloadReproduces(s.r);
  }

  lemma StepTable(s: State, e: Event)
    requires TableOk(s.r) && Possible(s, e)
    ensures TableStep(s.r, Step(s, e).r, GatewayDeleted(s, e))
  {
    match e
    case BothKeysHeld => BlankInv();
    case HourPassed(a, b) => HourTable(s, a, b); SameSlotsStep(s.r, Hour(s, a, b).0.r);
    case NormalMessage(from, command, data) => NormalTable(s, from, command, data);
    case GatewayMessage(from, device, command, data) => GatewayTable(s, from, device, command, data);
    case Reset(factory) => RebootTable(s, factory); SameSlotsStep(s.r, Reboot(s, factory).r);
    case _ => SameSlotsStep(s.r, s.r);
  }

  /* ---- Runs ---- */

  ghost predicate Reaches(s: State, es: seq<Event>, s': State)
    decreases |es|
  {
    if es == [] then s == s'
    else Shape(s.r) && Possible(s, es[0]) && Reaches(Step(s, es[0]), es[1..], s')
  }

  lemma StepSafe(s: State, e: Event)
    requires Safe(s) && Possible(s, e)
    ensures Safe(Step(s, e))
  {
    StepValve(s, e);
    StepTable(s, e);
    StepCounter(s, e);
  }

  lemma StepCounter(s: State, e: Event)
    requires Shape(s.r) && s.rtcCounter <= 24
    ensures Step(s, e).rtcCounter <= 24
  {}

  /** In every reachable state: flash agrees with RAM, the lock and the exercise invariant hold, and no
      id is stored twice. */
  lemma {:induction false} RunSafe(s: State, es: seq<Event>, s': State)
    requires Safe(s) && Reaches(s, es, s')
    ensures Safe(s') && LockInv(s'.v) && ExerciseInv(s'.v)
    ensures SameTable(Load(s'.r.flash), s'.r)
    decreases |es|
  {
    OkMeans(s'.v);
    if es == [] {
      ReloadReproduces(s.r);
    } else {
      StepSafe(s, es[0]);
      RunSafe(Step(s, es[0]), es[1..], s');
    }
  }

  predicate Masked(v: Valve) { v.m.keyPause || v.m.waterPause }

  /** The pending timers that end an exercise. */
  function Ending(v: Valve): seq<Event> {
    if v.t.det1 then [Det1Fires] else if v.t.det2 then [Det2Fires]
    else if v.t.act1 then [Act1Fires, Det1Fires] else [Act2Fires, Det2Fires]
  }

  lemma RunOne(s: State, e: Event, s': State)
    requires Shape(s.r) && Possible(s, e) && s' == Step(s, e)
    ensures Reaches(s, [e], s')
  {
    assert [e][1..] == [];
    assert Reaches(s', [], s');
  }

  lemma RunTwo(s: State, e: Event, e': Event, s': State)
    requires Shape(s.r) && Possible(s, e) && Reaches(Step(s, e), [e'], s')
    ensures Reaches(s, [e, e'], s')
  {
    assert [e, e'][1..] == [e'];
  }

  /** The Det timer of either motor lifts both masks and leaves the valve open. */
  lemma MotorEnds(s: State, second: bool, s': State)
    requires Safe(s) && (if second then s.v.t.det2 else s.v.t.det1) && s' == Step(s, DetOf(second))
    ensures Reaches(s, [DetOf(second)], s') && !Masked(s'.v) && s'.v.open == s.v.open
  {
    RunOne(s, DetOf(second), s');
    MasksOff1(s.v);
    MasksOff2(s.v);
    OpenStays(s.v);
  }

  /** The valve exercise can always end: in every state of every run in which keys or probe are masked,
      at most two timers that are pending or started by one of them lift both masks. */
  lemma ExerciseEnds(s0: State, es: seq<Event>, s: State) returns (s': State)
    requires Safe(s0) && Reaches(s0, es, s) && Masked(s.v)
    ensures Reaches(s, Ending(s.v), s') && !Masked(s'.v) && s'.v.open
  {
    RunSafe(s0, es, s);
    OkMeans(s.v);
    var second := Second(s.v);
    if s.v.t.det1 || s.v.t.det2 {
      s' := Step(s, DetOf(second));
      MotorEnds(s, second, s');
    } else {
      s' := BothTimers(s, second);
    }
  }

  /** Which motor ends the exercise. */
  predicate Second(v: Valve) { !v.t.det1 && (v.t.det2 || !v.t.act1) }

  function DetOf(second: bool): Event { if second then Det2Fires else Det1Fires }

  function ActOf(second: bool): Event { if second then Act2Fires else Act1Fires }

  lemma BothTimers(s: State, second: bool) returns (s': State)
    requires Safe(s) && s.v.open && if second then s.v.t.act2 else s.v.t.act1
    ensures Reaches(s, [ActOf(second), DetOf(second)], s') && !Masked(s'.v) && s'.v.open
  {
    var s1 := Step(s, ActOf(second));
    StepSafe(s, ActOf(second));
    s' := Step(s1, DetOf(second));
    MotorEnds(s1, second, s');
    RunTwo(s, ActOf(second), DetOf(second), s');
  }

  predicate MotorTimer(e: Event) { e.Act1Fires? || e.Act2Fires? || e.Det1Fires? || e.Det2Fires? }

  function Acts(v: Valve): nat { (if v.t.act1 then 1 else 0) + if v.t.act2 then 1 else 0 }

  /** An Act timer uses itself up and leaves the masks; a Det timer lifts them. */
  lemma MotorStep(s: State, e: Event)
    requires Shape(s.r) && Possible(s, e) && MotorTimer(e)
    ensures e.Det1Fires? || e.Det2Fires? ==> !Masked(Step(s, e).v)
    ensures e.Act1Fires? || e.Act2Fires? ==> Acts(Step(s, e).v) == Acts(s.v) - 1 && Masked(Step(s, e).v) == Masked(s.v)
  {
    MasksOff1(s.v);
    MasksOff2(s.v);
  }

  lemma {:induction false} StaysUnmasked(s: State, es: seq<Event>, s': State)
    requires Reaches(s, es, s') && !Masked(s.v) && forall i | 0 <= i < |es| :: MotorTimer(es[i])
    ensures !Masked(s'.v)
    decreases |es|
  {
    if es != [] {
      MotorStep(s, es[0]);
      StaysUnmasked(Step(s, es[0]), es[1..], s');
    }
  }

  lemma {:induction false} EnoughTimers(s: State, es: seq<Event>, s': State)
    requires Reaches(s, es, s') && |es| > Acts(s.v) && forall i | 0 <= i < |es| :: MotorTimer(es[i])
    ensures !Masked(s'.v)
    decreases |es|
  {
    MotorStep(s, es[0]);
    if es[0].Act1Fires? || es[0].Act2Fires? {
      EnoughTimers(Step(s, es[0]), es[1..], s');
    } else {
      StaysUnmasked(Step(s, es[0]), es[1..], s');
    }
  }

  /** In whatever order they fire, three motor timers in a row end the exercise; and until then one of them
      is pending. */
  lemma EveryOrderEnds(s: State, es: seq<Event>, s': State)
    requires Safe(s) && Reaches(s, es, s') && forall i | 0 <= i < |es| :: MotorTimer(es[i])
    ensures |es| >= 3 ==> !Masked(s'.v)
    ensures Masked(s'.v) ==> s'.v.t.act1 || s'.v.t.act2 || s'.v.t.det1 || s'.v.t.det2
  {
    if |es| >= 3 {
      EnoughTimers(s, es, s');
    }
    RunSafe(s, es, s');
  }

  /** Ending an exercise never moves the valve. */
  lemma OpenStays(v: Valve)
    ensures Turn1Timer(v).open == v.open && Turn2Timer(v).open == v.open
  {
    FailShows(Unmask1(v), 6);
    FailShows(Unmask2(v), 9);
  }

  /** An event that can never unlock, whatever the state. */
  predicate Harmless(e: Event) {
    match e
    case BothKeysHeld => false
    case NormalMessage(_, command, _) => command != 5
    case GatewayMessage(_, _, command, data) => command != 2 || data == 0
    case _ => true
  }

  /** The lock over whole runs, resets included: no key, alarm, sensor recovery, timer or restart opens
      a locked valve. */
  lemma {:induction false} LockHolds(s: State, es: seq<Event>, s': State)
    requires Safe(s) && Locked(s.v) && Reaches(s, es, s') && forall i | 0 <= i < |es| :: Harmless(es[i])
    ensures Locked(s'.v) && !s'.v.open && s'.v.moto == OTHER_OFF && !s'.v.m.pin1 && !s'.v.m.pin2
    decreases |es|
  {
    OkMeans(s'.v);
    if es != [] {
      assert Harmless(es[0]);
      StepSafe(s, es[0]);
      StepValve(s, es[0]);
      LockHolds(Step(s, es[0]), es[1..], s');
    }
  }

  /** The gateway is never deleted individually along the run. */
  ghost predicate GatewayStays(s: State, es: seq<Event>)
    decreases |es|
  {
    es == [] || (Shape(s.r) && !GatewayDeleted(s, es[0]) && GatewayStays(Step(s, es[0]), es[1..]))
  }

  /** Then each role slot holds the only id of its range. */
  lemma {:induction false} RolesHold(s: State, es: seq<Event>, s': State)
    requires Safe(s) && Roles(s.r) && Reaches(s, es, s') && GatewayStays(s, es)
    ensures Roles(s'.r)
    decreases |es|
  {
    if es != [] {
      StepSafe(s, es[0]);
      StepTable(s, es[0]);
      RolesHold(Step(s, es[0]), es[1..], s');
    }
  }
}

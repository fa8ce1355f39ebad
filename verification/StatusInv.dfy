/** Whether the shown status (Now_Status) agrees with the valve. */
module StatusInv {
  import opened ValveModel
  import opened ValveInv

  /** Close is never shown over an open valve. */
  predicate CloseIsTrue(v: Valve) { v.status.Close? ==> !v.open }

  /** Open is shown over a shut valve. */
  predicate Misleading(v: Valve) { v.status.Open? && !v.open }

  /** A step that does not start to mislead. */
  predicate Shows(v: Valve, w: Valve) { CloseIsTrue(w) && (!Misleading(v) ==> !Misleading(w)) }

  /** The ON key with the probe unplugged and the valve locked: the key handler shows Open before it asks for
      a permission that is refused. */
  predicate BlindPress(v: Valve) { v.status.MasterLostPeak? && v.lastFlag == OTHER_OFF }

  lemma OpenShows(v: Valve, act: nat)
    requires CloseIsTrue(v)
    ensures Shows(v, MotoOpen(v, act)) && Shows(v, MotoInitOpen(v, act))
  {}

  lemma CloseShows(v: Valve, act: nat)
    requires Ok(v) && CloseIsTrue(v)
    ensures Shows(v, MotoClose(v, act)) && !MotoClose(v, act).open
  {}

  lemma DetectShows(v: Valve, a: bool, b: bool)
    requires CloseIsTrue(v)
    ensures Shows(v, MotoDetect(v, a, b))
  {}

  /** A warning either changes nothing that is shown, or shows neither Open nor Close. */
  lemma EnableShows(v: Valve, id: nat)
    requires CloseIsTrue(v)
    ensures Shows(v, WarningEnable(v, id))
  {}

  lemma DisableShows(v: Valve)
    ensures Shows(v, WarningDisable(v)) && Shows(v, BackToNormal(v)) && !Misleading(WarningDisable(v))
  {}

  lemma KeyOnShows(v: Valve)
    requires Ok(v) && CloseIsTrue(v)
    ensures CloseIsTrue(KeyOn(v))
    ensures !Misleading(v) ==> (Misleading(KeyOn(v)) <==> BlindPress(v))
  {}

  lemma KeyOffShows(v: Valve, a: bool, b: bool)
    requires Ok(v) && CloseIsTrue(v)
    ensures Shows(v, KeyOff(v, a, b))
  {
    CloseShows(v.(lastClose := false), NORMAL_OFF);
    CloseShows(v, NORMAL_OFF);
    DisableShows(v);
    DisableShows(v.(status := Close));
    DetectShows(WarningDisable(v), a, b);
  }

  lemma LearnShows(v: Valve, data: int)
    requires CloseIsTrue(v)
    ensures Shows(v, KeyOffLong(v)) && Shows(v, LearnExpires(v)) && Shows(v, LearnCommand(v, data))
  {}

  lemma TimersShow(v: Valve)
    requires CloseIsTrue(v)
    ensures Shows(v, Act1(v)) && Shows(v, Act2(v)) && Shows(v, CountEdge1(v)) && Shows(v, CountEdge2(v))
    ensures Shows(v, Unmask1(v)) && Shows(v, Unmask2(v))
  {}

  lemma Turn1Shows(v: Valve)
    requires CloseIsTrue(v)
    ensures Shows(v, Turn1Timer(v))
  {
    EnableShows(Unmask1(v), 6);
  }

  lemma Turn2Shows(v: Valve)
    requires CloseIsTrue(v)
    ensures Shows(v, Turn2Timer(v))
  {
    EnableShows(Unmask2(v), 9);
  }

  lemma ExpiriesShow(v: Valve, a: bool, b: bool)
    requires Ok(v) && CloseIsTrue(v)
    ensures Shows(v, DetectExpires(v, a, b)) && Shows(v, DelayExpires(v))
  {
    DetectShows(v.(t := v.t.(detect := false)), a, b);
    CloseShows(v.(t := v.t.(delay := false)), OTHER_OFF);
  }

  lemma PeakShows(v: Valve, kind: nat)
    requires CloseIsTrue(v)
    ensures Shows(v, WarningWithPeak(v, kind))
  {
    EnableShows(v, 3);
    EnableShows(v, 4);
    DisableShows(v);
  }

  lemma EdgeShows(v: Valve, kind: nat, stat: nat)
    requires CloseIsTrue(v)
    ensures Shows(v, PeakEdge(v, kind, stat))
  {
    PeakShows(v, kind);
  }

  lemma WaterShows(v: Valve, on: bool, loss: bool)
    requires CloseIsTrue(v)
    ensures Shows(v, WaterTick(v, on, loss))
  {
    WaterEdgeShows(v.(p := v.p.(now := Reading(v, on, loss))));
  }

  lemma WaterEdgeShows(v: Valve)
    requires CloseIsTrue(v)
    ensures Shows(v, WaterEdge(v))
  {
    var (past, now) := (v.p.past, v.p.now);
    if past == 2 && now == 0 {
      PeakShows(v.(p := v.p.(stat := 1)), 3);
    } else if past == 0 && now == 1 {
      EdgeShows(v, 1, 4);
    } else if past == 0 && now == 2 {
      EdgeShows(v, 2, 8);
    } else if past == 1 && now == 0 {
      EdgeShows(v, 0, 16);
    } else if past == 1 && now == 2 {
      EdgeShows(v, 4, 32);
    } else {
      assert WaterEdge(v).status == v.status && WaterEdge(v).open == v.open;
    }
  }

  lemma NtcShows(v: Valve, volt1: real, volt2: real)
    requires Ok(v) && CloseIsTrue(v)
    ensures Shows(v, NtcTick(v, volt1, volt2))
  {
    var a := NtcAlarm(v, volt1);
    NtcAlarmKeeps(v, volt1);
    EnableShows(v.(ntcState := v.open), 8);
    DisableShows(a);
    DisableSame(a);
    OpenShows(WarningDisable(a), NORMAL_OPEN);
    CloseShows(WarningDisable(a), NORMAL_OFF);
  }

  lemma BatteryShows(v: Valve, isDoor: bool, data: int)
    requires CloseIsTrue(v)
    ensures Shows(v, Battery(v, isDoor, data)) && Shows(v, WaterReport(v)) && Shows(v, DelayCommand(v, data))
  {
    EnableShows(v, 7);
    EnableShows(v, 1);
    EnableShows(v, 2);
  }

  lemma OpenCommandShows(v: Valve)
    requires CloseIsTrue(v)
    ensures Shows(v, OpenCommand(v))
  {
    OpenShows(v, OTHER_OPEN);
  }

  lemma CloseCommandShows(v: Valve, silenced: bool)
    requires Ok(v) && CloseIsTrue(v)
    ensures Shows(v, CloseCommand(v, silenced))
  {
    DisableShows(v);
    DisableSame(v);
    var v1 := if silenced then WarningDisable(v) else v;
    DisableShows(v1);
    DisableSame(v1);
    CloseShows(WarningDisable(v1).(lastClose := true), OTHER_OFF);
  }

  lemma GatewayShows(v: Valve, data: int)
    requires Ok(v) && CloseIsTrue(v)
    ensures Shows(v, GatewayCommand(v, data))
  {
    OpenShows(v, OTHER_OPEN);
    CloseShows(v, OTHER_OFF);
  }

  lemma BootShows(moto: nat, factory: bool, slaveAlarm: bool)
    ensures var w := Boot(PowerOn(moto, factory), slaveAlarm); CloseIsTrue(w) && !Misleading(w)
  {
    EnableShows(PowerOn(moto, factory), 2);
    OpenShows(PowerOn(moto, factory), NORMAL_OPEN);
  }
}

/** The same over runs of the controller. */
module StatusRuns {
  import opened RegistryModel
  import opened ValveModel
  import opened ValveInv
  import opened StatusInv
  import opened ControllerModel
  import opened ControllerInv

  lemma ShowsBoth(v: Valve, w: Valve, x: Valve)
    requires Shows(v, w) && Shows(w, x)
    ensures Shows(v, x)
  {}

  lemma CommandShows(v: Valve, r: Reg, d: nat, command: int, data: int)
    requires Ok(v) && CloseIsTrue(v) && Shape(r)
    ensures Shows(v, CommandValve(v, r, d, command, data))
  {
    if command == 2 {
      BatteryShows(v, d == DoorId(r), data);
    } else if command == 3 {
      LearnShows(v, data);
    } else if command == 4 {
      BatteryShows(v, false, data);
    } else if command == 5 {
      OpenCommandShows(v);
    } else if command == 6 {
      CloseCommandShows(v, AnySlaveAlarm(r) && !AnySlaveAlarm(SetSlaveAlarm(r, d, 0)));
    } else if command == 8 {
      BatteryShows(v, false, data);
    } else {
      assert CommandValve(v, r, d, command, data) == v;
    }
  }

  lemma ReactShows(v: Valve, r: Reg)
    requires CloseIsTrue(v) && Shape(r)
    ensures Shows(v, OfflineReact(v, r))
  {
    DisableShows(v);
  }

  lemma DataShows(s: State, d: nat, command: int, data: int)
    requires Ok(s.v) && CloseIsTrue(s.v) && Shape(s.r)
    ensures Shows(s.v, DataSolve(s, d, command, data).v)
  {
    var v1 := CommandValve(s.v, s.r, d, command, data);
    var r1 := ClearTime(CommandTable(s.r, d, command, data), d);
    CommandShows(s.v, s.r, d, command, data);
    ReactShows(v1, r1);
    ShowsBoth(s.v, v1, OfflineReact(v1, r1));
  }

  lemma NormalShows(s: State, from: int, command: int, data: int)
    requires Ok(s.v) && CloseIsTrue(s.v) && Shape(s.r)
    ensures Shows(s.v, NormalSolve(s, from, command, data).v)
  {
    var d := ToU32(from);
    if !s.v.learning && Registered(s.r, d) {
      DataShows(s.(r := SetAlive(s.r, d, 1)), d, command, data);
    }
  }

  lemma HourShows(s: State, a: bool, b: bool)
    requires CloseIsTrue(s.v) && Shape(s.r)
    ensures Shows(s.v, Hour(s, a, b).0.v)
  {
    var v := Exercise(s, a, b);
    DetectShows(s.v, a, b);
    EnableShows(v, 5);
    ShowsBoth(s.v, v, WarningEnable(v, 5));
  }

  /** Events that only move the valve, the ON key aside. */
  lemma LocalShows(s: State, e: Event)
    requires Ok(s.v) && CloseIsTrue(s.v) && Shape(s.r) && !e.KeyOnDown? && !e.HourPassed? && !e.Reset?
    ensures Shows(s.v, Step(s, e).v)
  {
    match e
    case KeyOffDown(a, b) => KeyOffShows(s.v, a, b);
    case KeyOffHeld => LearnShows(s.v, 0);
    case BothKeysHeld => assert Step(s, e).v.status == s.v.status && Step(s, e).v.open == s.v.open;
    case LearnTimeout => LearnShows(s.v, 0);
    case Act1Fires => TimersShow(s.v);
    case Act2Fires => TimersShow(s.v);
    case Det1Fires => Turn1Shows(s.v);
    case Det2Fires => Turn2Shows(s.v);
    case DetectFires(a, b) => ExpiriesShow(s.v, a, b);
    case DelayFires => ExpiriesShow(s.v, false, false);
    case Edge1 => TimersShow(s.v);
    case Edge2 => TimersShow(s.v);
    case WaterScan(on, loss) => WaterShows(s.v, on, loss);
    case NtcScan(volt1, volt2) => NtcShows(s.v, volt1, volt2);
    case NormalMessage(from, command, data) => NormalShows(s, from, command, data);
    case GatewayMessage(from, device, command, data) => GatewayShows(s.v, data);
    case _ =>
  }

  /** Every event: Close is never shown over an open valve, and Open starts to be shown over a shut one exactly
      by the ON key on a locked valve with the probe unplugged. */
  lemma StepShows(s: State, e: Event)
    requires Safe(s) && CloseIsTrue(s.v)
    ensures CloseIsTrue(Step(s, e).v)
    ensures !Misleading(s.v) ==> (Misleading(Step(s, e).v) <==> e.KeyOnDown? && BlindPress(s.v))
  {
    if e.KeyOnDown? {
      KeyOnShows(s.v);
    } else if e.HourPassed? {
      HourShows(s, e.senor1, e.senor2);
    } else if e.Reset? {
      BootShows(s.v.moto, e.factory, AnySlaveAlarm(Load(s.r.flash)));
    } else {
      LocalShows(s, e);
    }
  }

  /** An accepted OtherOpen opens. */
  lemma UnlockOpens(s: State, e: Event)
    requires Safe(s) && Unlocks(s, e) && !e.BothKeysHeld?
    ensures Step(s, e).v.open
  {
    OtherOpenUnlocks(s.v);
    if e.NormalMessage? {
      OpenCommandOpens(s, e.from, e.data);
    }
  }

  lemma OpenCommandOpens(s: State, from: int, data: int)
    requires Safe(s) && !s.v.learning && Registered(s.r, ToU32(from)) && Normal(s.v)
    ensures NormalSolve(s, from, 5, data).v.open
  {
    var d := ToU32(from);
    var s1 := s.(r := SetAlive(s.r, d, 1));
    OtherOpenUnlocks(s.v);
    assert CommandValve(s1.v, s1.r, d, 5, data) == OpenCommand(s.v);
    ReactSame(OpenCommand(s.v), ClearTime(CommandTable(s1.r, d, 5, data), d));
  }

  /** Open over a shut valve means that the valve is locked, unless the devices were wiped. */
  lemma StepMisleads(s: State, e: Event)
    requires Safe(s) && Possible(s, e) && CloseIsTrue(s.v) && (Misleading(s.v) ==> Locked(s.v)) && !e.BothKeysHeld?
    ensures Misleading(Step(s, e).v) ==> Locked(Step(s, e).v)
  {
    StepShows(s, e);
    StepValve(s, e);
    if Unlocks(s, e) {
      UnlockOpens(s, e);
    }
  }

  /** The blind key press never happens along the run. */
  ghost predicate NoBlindPress(s: State, es: seq<Event>)
    decreases |es|
  {
    es == [] || (Shape(s.r) && !(es[0].KeyOnDown? && BlindPress(s.v)) && NoBlindPress(Step(s, es[0]), es[1..]))
  }

  /** Over every run: Close is true; Open is true in runs without a blind press; and in runs without a wipe a
      valve shown open is open or locked. */
  lemma {:induction false} StatusHolds(s: State, es: seq<Event>, s': State)
    requires Safe(s) && Reaches(s, es, s') && CloseIsTrue(s.v)
    ensures CloseIsTrue(s'.v)
    ensures !Misleading(s.v) && NoBlindPress(s, es) ==> !Misleading(s'.v)
    ensures (Misleading(s.v) ==> Locked(s.v)) && (forall i | 0 <= i < |es| :: !es[i].BothKeysHeld?) ==>
      (Misleading(s'.v) ==> Locked(s'.v))
    decreases |es|
  {
    if es != [] {
      StepSafe(s, es[0]);
      StepShows(s, es[0]);
      if (Misleading(s.v) ==> Locked(s.v)) && !es[0].BothKeysHeld? {
        StepMisleads(s, es[0]);
      }
      StatusHolds(Step(s, es[0]), es[1..], s');
    }
  }

  /** The wipe is no accident: after a blind press it leaves Open shown over a shut valve that is not locked. */
  lemma WipeMisleads(s: State)
    requires Safe(s) && Misleading(s.v)
    ensures Misleading(Step(s, BothKeysHeld).v) && !Locked(Step(s, BothKeysHeld).v)
  {}
}

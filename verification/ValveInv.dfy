/** The lock and the valve exercise, step by step. */
module ValveInv {
  import opened ValveModel

  /** Flash agrees with LastFlag, and a valve shut by OtherOff is shut. */
  ghost predicate LockInv(v: Valve) { v.moto == v.lastFlag && (v.lastFlag == OTHER_OFF ==> !v.open) }

  /** The valve exercise never gets stuck: a closed valve is at rest, an open valve with a drive pin low has
      the timer that raises it pending, and masked keys or probe have a timer pending that unmasks them. */
  ghost predicate ExerciseInv(v: Valve) {
    && (!v.open ==> !v.m.pin1 && !v.m.pin2 && !v.t.act1 && !v.t.act2 && !v.t.det1 && !v.t.det2)
    && (v.open && !v.m.pin1 ==> v.t.act1)
    && (v.open && !v.m.pin2 ==> v.t.act2)
    && (v.m.keyPause || v.m.waterPause ==> v.t.act1 || v.t.act2 || v.t.det1 || v.t.det2)
  }

  /** The part of the state that the two invariants speak about. */
  datatype Core = Core(synced: bool, locked: bool, open: bool, pin1: bool, pin2: bool,
                       act1: bool, act2: bool, det1: bool, det2: bool, keyPause: bool, waterPause: bool)

  ghost function CoreOf(v: Valve): Core {
    Core(v.moto == v.lastFlag, v.lastFlag == OTHER_OFF, v.open, v.m.pin1, v.m.pin2,
         v.t.act1, v.t.act2, v.t.det1, v.t.det2,
         v.m.keyPause, v.m.waterPause)
  }

  ghost predicate Sound(c: Core) {
    && c.synced
    && (if c.open then !c.locked && (c.pin1 || c.act1) && (c.pin2 || c.act2)
        else !c.pin1 && !c.pin2 && !c.act1 && !c.act2 && !c.det1 && !c.det2)
    && (c.keyPause || c.waterPause ==> c.act1 || c.act2 || c.det1 || c.det2)
  }

  ghost predicate Ok(v: Valve) { Sound(CoreOf(v)) }

  lemma OkMeans(v: Valve)
    ensures Ok(v) <==> LockInv(v) && ExerciseInv(v)
  {}

  /** Still locked if it was, and either nothing relevant changed or the valve was closed properly. */
  ghost predicate Quiet(v: Valve, w: Valve) {
    && (CoreOf(v).locked ==> CoreOf(w).locked)
    && (CoreOf(w) == CoreOf(v) ||
        CoreOf(w) == Core(true, CoreOf(w).locked, false, false, false, false, false, false, false, false, false))
  }

  lemma QuietKeeps(v: Valve, w: Valve)
    requires Ok(v) && Quiet(v, w)
    ensures Ok(w) && (v.lastFlag == OTHER_OFF ==> w.lastFlag == OTHER_OFF)
  {}

  /** The promise of every step that is not an unlocking command: soundness and the lock. */
  ghost predicate Keeps(v: Valve, w: Valve) { Ok(w) && (v.lastFlag == OTHER_OFF ==> w.lastFlag == OTHER_OFF) }

  lemma SameKeeps(v: Valve, w: Valve)
    requires Ok(v) && CoreOf(w) == CoreOf(v)
    ensures Keeps(v, w)
  {}

  lemma OpenKeeps(v: Valve)
    requires Ok(v)
    ensures Keeps(v, MotoOpen(v, NORMAL_OPEN)) && Keeps(v, MotoInitOpen(v, NORMAL_OPEN))
  {}

  /** The one way to unlock: OtherOpen always opens. */
  lemma OtherOpenUnlocks(v: Valve)
    requires Ok(v)
    ensures var w := MotoOpen(v, OTHER_OPEN); Ok(w) && w.open && w.lastFlag == OTHER_OPEN && w.m.pin1 && w.m.pin2
  {}

  /** The actions that open. */
  predicate Opening(act: nat) { act == NORMAL_OPEN || act == OTHER_OPEN }

  lemma OpensOk(v: Valve, act: nat)
    requires Ok(v) && Opening(act)
    ensures Ok(MotoOpen(v, act)) && Ok(MotoInitOpen(v, act))
    ensures act == NORMAL_OPEN ==> Keeps(v, MotoOpen(v, act)) && Keeps(v, MotoInitOpen(v, act))
  {
    OpenKeeps(v);
    OtherOpenUnlocks(v);
  }

  /** Shut, drive pins low, nothing scheduled for the motors. */
  predicate AtRest(v: Valve) {
    !v.open && !v.m.pin1 && !v.m.pin2 && !v.t.act1 && !v.t.act2 && !v.t.det1 && !v.t.det2
  }

  /** Closing leaves the valve at rest in every branch, the refused one included. */
  lemma ClosesOk(v: Valve, act: nat)
    requires Ok(v)
    ensures Keeps(v, MotoClose(v, act)) && AtRest(MotoClose(v, act))
  {
    CloseQuiet(v, act);
    QuietKeeps(v, MotoClose(v, act));
  }

  lemma CloseQuiet(v: Valve, act: nat)
    requires Ok(v)
    ensures Quiet(v, MotoClose(v, act))
  {}

  lemma DetectKeeps(v: Valve, a: bool, b: bool)
    requires Ok(v)
    ensures Keeps(v, MotoDetect(v, a, b))
  {}

  lemma ApplyQuiet(v: Valve, e: Effect)
    requires Ok(v)
    ensures Quiet(v, Apply(v, e))
  {
    if e.CloseAndShow? { CloseQuiet(v, e.act); }
  }

  lemma EnableQuiet(v: Valve, id: nat)
    requires Ok(v)
    ensures Quiet(v, WarningEnable(v, id))
  {
    ApplyQuiet(v.(prio := Priority(id)), Callback(id, v.status));
  }

  lemma EnableKeeps(v: Valve, id: nat)
    requires Ok(v)
    ensures Keeps(v, WarningEnable(v, id))
  {
    EnableQuiet(v, id);
    QuietKeeps(v, WarningEnable(v, id));
  }

  /** The warnings that close the valve whatever is shown. */
  predicate Shuts(id: nat) { id == 1 || id == 2 || id == 4 || id == 8 }

  function Larger(a: nat, b: nat): nat { if a < b then b else a }

  /** Priorities of warnings 1 to 9. */
  const PRIORITIES: seq<nat> := [0, 6, 8, 1, 7, 5, 3, 4, 2, 3]

  lemma PriorityIs(id: nat)
    requires 1 <= id <= 9
    ensures Priority(id) == PRIORITIES[id]
  {}

  lemma ApplyShuts(v: Valve, e: Effect)
    requires Ok(v)
    ensures Apply(v, e).prio == v.prio && (e.CloseAndShow? ==> !Apply(v, e).open)
  {
    if e.CloseAndShow? { ClosesOk(v, e.act); }
  }

  /** A warning is accepted iff none of higher priority is active; those that shut do so. */
  lemma EnableMeans(v: Valve, id: nat)
    requires Ok(v) && 1 <= id <= 9
    ensures var w := WarningEnable(v, id);
      w.prio == Larger(v.prio, PRIORITIES[id]) && (PRIORITIES[id] >= v.prio && Shuts(id) ==> !w.open)
  {
    PriorityIs(id);
    ApplyShuts(v.(prio := Priority(id)), Callback(id, v.status));
  }

  lemma DisableSame(v: Valve)
    ensures CoreOf(WarningDisable(v)) == CoreOf(v) && CoreOf(BackToNormal(v)) == CoreOf(v)
  {}

  /* ---- Work.c ---- */

  lemma LostPeakQuiet(v: Valve)
    requires Ok(v)
    ensures Quiet(v, WarningWithPeak(v, 1))
  {
    EnableQuiet(v, 3);
  }

  lemma ShortQuiet(v: Valve)
    requires Ok(v)
    ensures Quiet(v, WarningWithPeak(v, 2)) && Quiet(v, WarningWithPeak(v, 4))
  {
    EnableQuiet(v, 4);
  }

  lemma DryQuiet(v: Valve)
    ensures CoreOf(WarningWithPeak(v, 3)) == CoreOf(v) && CoreOf(WarningWithPeak(v, 0)) == CoreOf(v)
  {}

  lemma PeakQuiet(v: Valve, kind: nat)
    requires Ok(v)
    ensures Quiet(v, WarningWithPeak(v, kind))
  {
    if kind == 0 {
      DryQuiet(v);
    } else if kind == 1 {
      LostPeakQuiet(v);
    } else if kind == 2 {
      ShortQuiet(v);
    } else if kind == 3 {
      DryQuiet(v);
    } else if kind == 4 {
      ShortQuiet(v);
    } else {
      assert WarningWithPeak(v, kind) == v;
    }
  }

  lemma EdgeQuiet(v: Valve, kind: nat, stat: nat)
    requires Ok(v)
    ensures Quiet(v, PeakEdge(v, kind, stat))
  {
    PeakQuiet(v, kind);
  }

  lemma WaterEdgeQuiet(v: Valve)
    requires Ok(v)
    ensures Quiet(v, WaterEdge(v))
  {
    var (past, now) := (v.p.past, v.p.now);
    if past == 2 && now == 0 {
      PeakQuiet(v.(p := v.p.(stat := 1)), 3);
    } else if past == 2 && now == 1 {
      assert CoreOf(WaterEdge(v)) == CoreOf(v);
    } else if past == 0 && now == 1 {
      EdgeQuiet(v, 1, 4);
    } else if past == 0 && now == 2 {
      EdgeQuiet(v, 2, 8);
    } else if past == 1 && now == 0 {
      EdgeQuiet(v, 0, 16);
    } else if past == 1 && now == 2 {
      EdgeQuiet(v, 4, 32);
    } else {
      assert WaterEdge(v) == v;
    }
  }

  lemma WaterQuiet(v: Valve, on: bool, loss: bool)
    requires Ok(v)
    ensures Quiet(v, WaterTick(v, on, loss))
  {
    var v1 := v.(p := v.p.(now := Reading(v, on, loss)));
    assert CoreOf(v1) == CoreOf(v);
    WaterEdgeQuiet(v1);
  }

  lemma WaterKeeps(v: Valve, on: bool, loss: bool)
    requires Ok(v)
    ensures Keeps(v, WaterTick(v, on, loss))
  {
    WaterQuiet(v, on, loss);
    QuietKeeps(v, WaterTick(v, on, loss));
  }

  /* ---- ADCwork.c ---- */

  lemma NtcAlarmKeeps(v: Valve, volt: real)
    requires Ok(v)
    ensures Keeps(v, NtcAlarm(v, volt))
  {
    var v1 := v.(ntcState := v.open);
    assert CoreOf(v1) == CoreOf(v);
    EnableKeeps(v1, 8);
  }

  lemma NtcRestoreKeeps(v: Valve, volt: real)
    requires Ok(v)
    ensures Keeps(v, NtcRestore(v, volt))
  {
    var v1 := WarningDisable(v);
    DisableSame(v);
    OpenKeeps(v1);
    CloseQuiet(v1, NORMAL_OFF);
    QuietKeeps(v1, MotoClose(v1, NORMAL_OFF));
  }

  lemma NtcKeeps(v: Valve, volt1: real, volt2: real)
    requires Ok(v)
    ensures Keeps(v, NtcTick(v, volt1, volt2))
  {
    NtcAlarmKeeps(v, volt1);
    NtcRestoreKeeps(NtcAlarm(v, volt1), volt2);
  }

  /* ---- Moto.c timers ---- */

  lemma ActKeeps(v: Valve)
    requires Ok(v)
    ensures v.t.act1 ==> Keeps(v, Act1(v))
    ensures v.t.act2 ==> Keeps(v, Act2(v))
  {}

  lemma Unmask1Keeps(v: Valve)
    requires Ok(v) && v.t.det1
    ensures Keeps(v, Unmask1(v))
  {}

  lemma Unmask2Keeps(v: Valve)
    requires Ok(v) && v.t.det2
    ensures Keeps(v, Unmask2(v))
  {}

  /** A motor failure only changes what is shown. */
  lemma FailShows(v: Valve, id: nat)
    requires id == 6 || id == 9
    ensures WarningEnable(v, id).m == v.m && WarningEnable(v, id).open == v.open
  {}

  /** The end of an exercise lifts both masks. */
  lemma MasksOff1(v: Valve)
    ensures !Turn1Timer(v).m.keyPause && !Turn1Timer(v).m.waterPause
  {
    var v1 := Unmask1(v);
    if v.m.turn1 < 2 && !v.m.fail2 {
      FailShows(v1, 6);
      assert Turn1Timer(v).m == WarningEnable(v1, 6).m.(alarm := true, fail1 := true);
    } else if v.m.turn1 < 2 {
      assert Turn1Timer(v).m == v1.m.(fail1 := true);
    } else {
      assert Turn1Timer(v).m == v1.m.(alarm := v1.m.alarm && v1.m.fail2, fail1 := false);
    }
  }

  lemma MasksOff2(v: Valve)
    ensures !Turn2Timer(v).m.keyPause && !Turn2Timer(v).m.waterPause
  {
    var v1 := Unmask2(v);
    if v.m.turn2 < 2 {
      FailShows(v1, 9);
      assert Turn2Timer(v).m == WarningEnable(v1, 9).m.(fail2 := true, alarm := true);
    } else {
      assert Turn2Timer(v).m == v1.m.(fail2 := false, alarm := false);
    }
  }

  lemma Turn1Keeps(v: Valve)
    requires Ok(v) && v.t.det1
    ensures Keeps(v, Turn1Timer(v))
  {
    Unmask1Keeps(v);
    var a := Unmask1(v);
    EnableKeeps(a, 6);
    if v.m.turn1 < 2 && !v.m.fail2 {
      SameKeeps(WarningEnable(a, 6), Turn1Timer(v));
    } else {
      SameKeeps(a, Turn1Timer(v));
    }
  }

  lemma Turn2Keeps(v: Valve)
    requires Ok(v) && v.t.det2
    ensures Keeps(v, Turn2Timer(v))
  {
    Unmask2Keeps(v);
    var a := Unmask2(v);
    EnableKeeps(a, 9);
    if v.m.turn2 < 2 {
      SameKeeps(WarningEnable(a, 9), Turn2Timer(v));
    } else {
      SameKeeps(a, Turn2Timer(v));
    }
  }

  lemma EdgeSame(v: Valve)
    ensures CoreOf(CountEdge1(v)) == CoreOf(v) && CoreOf(CountEdge2(v)) == CoreOf(v)
  {}

  lemma DetectExpiresKeeps(v: Valve, a: bool, b: bool)
    requires Ok(v)
    ensures Keeps(v, DetectExpires(v, a, b))
  {
    DetectKeeps(v.(t := v.t.(detect := false)), a, b);
  }

  lemma DelayExpiresKeeps(v: Valve)
    requires Ok(v)
    ensures Keeps(v, DelayExpires(v))
  {
    var v1 := v.(t := v.t.(delay := false));
    CloseQuiet(v1, OTHER_OFF);
    QuietKeeps(v1, DelayExpires(v));
  }

  lemma BootKeeps(moto: nat, factory: bool, slaveAlarm: bool)
    ensures Keeps(PowerOn(moto, factory), Boot(PowerOn(moto, factory), slaveAlarm))
  {
    var v := PowerOn(moto, factory);
    if slaveAlarm {
      EnableKeeps(v, 2);
    } else {
      OpenKeeps(v);
    }
  }

  /* ---- Keys ---- */

  lemma BootOk(v: Valve, slaveAlarm: bool)
    requires Ok(v)
    ensures Keeps(v, Boot(v, slaveAlarm))
  {
    EnableKeeps(v, 2);
    OpenKeeps(v);
  }

  lemma KeyOnKeeps(v: Valve)
    requires Ok(v)
    ensures Keeps(v, KeyOn(v))
  {
    if v.status.Close? && !v.lastClose {
      OpenKeeps(v);
    } else if v.status.MasterLostPeak? {
      OpenKeeps(v.(status := Open));
    } else {
      assert KeyOn(v) == v;
    }
  }

  lemma KeyOffKeeps(v: Valve, a: bool, b: bool)
    requires Ok(v)
    ensures Keeps(v, KeyOff(v, a, b))
  {
    DisableSame(v);
    if v.factory {
      DetectKeeps(WarningDisable(v), a, b);
    } else if v.status.Open? {
      CloseQuiet(v.(lastClose := false), NORMAL_OFF);
      QuietKeeps(v.(lastClose := false), KeyOff(v, a, b));
    } else if v.status.MasterLostPeak? {
      CloseQuiet(v, NORMAL_OFF);
      QuietKeeps(v, MotoClose(v, NORMAL_OFF));
      SameKeeps(MotoClose(v, NORMAL_OFF), KeyOff(v, a, b));
    } else if v.status.MasterWaterAlarmDeActive? {
      DisableSame(v.(status := Close));
      SameKeeps(v, KeyOff(v, a, b));
    } else {
      assert KeyOff(v, a, b) == v;
    }
  }

  lemma KeyOffLongSame(v: Valve)
    ensures CoreOf(KeyOffLong(v)) == CoreOf(v) && CoreOf(LearnExpires(v)) == CoreOf(v)
  {
    assert CoreOf(LearnExpires(v)) == CoreOf(v);
    if Normal(v) {
    } else if v.status.Learn? {
    } else {
    }
  }

  /* ---- Radio commands ---- */

  lemma BatteryKeeps(v: Valve, isDoor: bool, data: int)
    requires Ok(v)
    ensures Keeps(v, Battery(v, isDoor, data))
  {
    EnableKeeps(v, 7);
    EnableKeeps(v, 1);
  }

  lemma WaterReportKeeps(v: Valve)
    requires Ok(v)
    ensures Keeps(v, WaterReport(v))
  {
    EnableKeeps(v, 2);
  }

  lemma CloseCommandKeeps(v: Valve, silenced: bool)
    requires Ok(v)
    ensures Keeps(v, CloseCommand(v, silenced))
  {
    var v1 := if silenced then WarningDisable(v) else v;
    DisableSame(v);
    DisableSame(v1);
    var v2 := WarningDisable(v1).(lastClose := true);
    assert CoreOf(v2) == CoreOf(v1) == CoreOf(v);
    CloseQuiet(v2, OTHER_OFF);
    QuietKeeps(v2, MotoClose(v2, OTHER_OFF));
  }

  lemma LearnCommandSame(v: Valve, data: int)
    ensures CoreOf(LearnCommand(v, data)) == CoreOf(v)
  {}

  lemma DelayCommandSame(v: Valve, data: int)
    ensures CoreOf(DelayCommand(v, data)) == CoreOf(v)
  {
    if data != 0 {
      assert DelayCommand(v, data) == v.(t := v.t.(delay := false));
    } else if v.status.Open? {
      assert DelayCommand(v, data) == v.(t := v.t.(delay := true));
    } else {
      assert DelayCommand(v, data) == v;
    }
  }

  lemma OpenCommandOk(v: Valve)
    requires Ok(v)
    ensures Ok(OpenCommand(v)) && (if Normal(v) then OpenCommand(v).lastFlag == OTHER_OPEN else OpenCommand(v) == v)
  {
    OtherOpenUnlocks(v);
    assert CoreOf(MotoOpen(v, OTHER_OPEN).(lastClose := false)) == CoreOf(MotoOpen(v, OTHER_OPEN));
  }

  lemma GatewayCommandOk(v: Valve, data: int)
    requires Ok(v)
    ensures Ok(GatewayCommand(v, data))
    ensures Normal(v) && data != 0 ==> GatewayCommand(v, data).lastFlag == OTHER_OPEN
    ensures !(Normal(v) && data != 0) ==> Keeps(v, GatewayCommand(v, data))
  {
    OtherOpenUnlocks(v);
    CloseQuiet(v, OTHER_OFF);
    QuietKeeps(v, MotoClose(v, OTHER_OFF));
  }

  /* ---- The freeze alarm ---- */

  /** `n` scans that see no recovery voltage. */
  ghost function Scans(v: Valve, volts: seq<(real, real)>): Valve
    decreases |volts|
  {
    if volts == [] then v else Scans(NtcTick(v, volts[0].0, volts[0].1), volts[1..])
  }

  lemma {:induction false} AlarmPersists(v: Valve, volts: seq<(real, real)>)
    requires v.status.NTCWarning? && forall i | 0 <= i < |volts| :: volts[i].1 < 1.168
    ensures Scans(v, volts) == v
    decreases |volts|
  {
    if volts != [] {
      assert NtcTick(v, volts[0].0, volts[0].1) == v;
      AlarmPersists(v, volts[1..]);
    }
  }

  /** An accepted freeze alarm closes the valve and shows NTCWarning. */
  lemma AlarmCloses(v: Valve, volt: real)
    requires Ok(v) && volt < 1.153 && !v.status.NTCWarning? && v.prio <= 2
    ensures var w := NtcAlarm(v, volt);
      && w.status.NTCWarning? && !w.open && w.ntcState == v.open && Ok(w)
      && (w.lastFlag == OTHER_OFF <==> v.lastFlag == OTHER_OFF)
  {
    NtcAlarmKeeps(v, volt);
    var v1 := v.(ntcState := v.open);
    assert Priority(8) == 2 && Callback(8, v1.status) == CloseAndShow(NORMAL_OFF, NTCWarning);
  }

  lemma RestoreRestores(v: Valve, volt: real)
    requires Ok(v) && v.status.NTCWarning? && !v.open && volt >= 1.168
    requires v.ntcState ==> v.lastFlag != OTHER_OFF
    ensures var w := NtcRestore(v, volt);
      w.open == v.ntcState && w.status == (if w.open then Open else Close) && w.prio == 0 && Ok(w)
  {
    NtcRestoreKeeps(v, volt);
  }

  /** From any sound state: an accepted alarm, any number of scans below recovery, then the recovery
      scan leave the valve as it was before the alarm, and the status says so. */
  lemma FreezeRoundTrip(v: Valve, low: (real, real), volts: seq<(real, real)>, high: (real, real))
    requires Ok(v) && low.0 < 1.153 && low.1 < 1.168 && !v.status.NTCWarning? && v.prio <= 2
    requires (forall i | 0 <= i < |volts| :: volts[i].1 < 1.168) && high.1 >= 1.168
    ensures var w := NtcTick(Scans(NtcTick(v, low.0, low.1), volts), high.0, high.1);
      && w.open == v.open && w.status == (if v.open then Open else Close) && Ok(w)
  {
    var a := NtcAlarm(v, low.0);
    AlarmCloses(v, low.0);
    assert NtcTick(v, low.0, low.1) == a;
    AlarmPersists(a, volts);
    assert NtcAlarm(a, high.0) == a;
    RestoreRestores(a, high.1);
  }
}

/** What every handler of the valve controller does, said of the fields alone: one law per handler of
    applications/Moto.c, Status.c, key.c, Work.c, ADCwork.c and the valve commands by radio. */
module ValveLaws {
  import opened ValveModel
  import opened ValveInv

  /* ---- Moving the valve ---- */

  /** Nothing but the valve, its motors, its priority, status and probe has changed. */
  ghost predicate Untouched(v: Valve, w: Valve) {
    && w.learning == v.learning && w.lastClose == v.lastClose && w.ntcState == v.ntcState && w.factory == v.factory
    && w.t.learn == v.t.learn && w.m.turn1 == v.m.turn1 && w.m.turn2 == v.m.turn2
    && w.m.fail1 == v.m.fail1 && w.m.fail2 == v.m.fail2 && w.m.alarm == v.m.alarm
  }

  /** Shut and at rest for the reason `act`; a lock stays. */
  ghost predicate ShutDown(v: Valve, w: Valve, act: nat) {
    && Untouched(v, w) && AtRest(w) && !w.m.keyPause && !w.m.waterPause && w.t.detect == v.t.detect
    && w.lastFlag == w.moto == (if v.lastFlag == OTHER_OFF then OTHER_OFF else act)
    && (v.lastFlag != OTHER_OFF ==> !w.m.irq1 && !w.m.irq2)
    && w.t.delay == (v.lastFlag == OTHER_OFF && act != OTHER_OFF && v.t.delay)
  }

  /** Open and driven for the reason `act`, the delayed closing called off. */
  ghost predicate OpenedUp(v: Valve, w: Valve, act: nat) {
    && Untouched(v, w) && w.open && w.status.Open? && w.lastFlag == w.moto == act && w.m.pin1 && w.m.pin2 && !w.t.delay
    && w.m.irq1 == v.m.irq1 && w.m.irq2 == v.m.irq2
    && w.m.keyPause == v.m.keyPause && w.m.waterPause == v.m.waterPause
    && w.t.act1 == v.t.act1 && w.t.act2 == v.t.act2 && w.t.det1 == v.t.det1 && w.t.det2 == v.t.det2
    && w.t.detect == (v.t.detect || act == NORMAL_OPEN)
  }

  /** Moto_Close: the status is left alone only when a locked valve is not asked to lock again. */
  lemma CloseLaw(v: Valve, act: nat)
    requires Ok(v)
    ensures var w := MotoClose(v, act);
      && ShutDown(v, w, act) && w.prio == v.prio && w.p == v.p
      && w.status == (if v.lastFlag == OTHER_OFF && act != OTHER_OFF then v.status else Close)
  {
    if v.lastFlag == OTHER_OFF && act == OTHER_OFF {
      assert MotoClose(v, act) == v.(status := Close, open := false, t := v.t.(delay := false));
    }
  }

  /** Moto_Open: only OtherOpen opens a locked valve. */
  lemma OpenLaw(v: Valve, act: nat)
    ensures var w := MotoOpen(v, act);
      if v.lastFlag == OTHER_OFF && act != OTHER_OPEN then w == v
      else OpenedUp(v, w, act) && w.prio == v.prio && w.p == v.p
  {}

  /** An exercise begins: each motor of an open valve whose end switch reads high is turned back, its edges counted
      from 0, until its timer fires, keys and probe masked meanwhile. */
  ghost predicate Exercised(v: Valve, w: Valve, high1: bool, high2: bool) {
    if !v.open then w == v
    else
      && w.m.turn1 == 0 && w.m.turn2 == 0 && !w.m.fail1 && !w.m.fail2
      && (if high1 then !w.m.pin1 && w.m.irq1 && w.t.act1
          else w.m.pin1 == v.m.pin1 && w.m.irq1 == v.m.irq1 && w.t.act1 == v.t.act1)
      && (if high2 then !w.m.pin2 && w.m.irq2 && w.t.act2
          else w.m.pin2 == v.m.pin2 && w.m.irq2 == v.m.irq2 && w.t.act2 == v.t.act2)
      && (if high1 || high2 then w.m.keyPause && w.m.waterPause
          else w.m.keyPause == v.m.keyPause && w.m.waterPause == v.m.waterPause)
      && w == v.(m := w.m, t := w.t) && w.m.alarm == v.m.alarm
      && w.t == v.t.(act1 := w.t.act1, act2 := w.t.act2)
  }

  /** Moto_Detect */
  lemma DetectLaw(v: Valve, high1: bool, high2: bool)
    ensures Exercised(v, MotoDetect(v, high1, high2), high1, high2)
  {}

  /* ---- Warnings ---- */

  /** The reason for which warning `id` shuts the valve, 0 if it does not. */
  function ShutReason(id: nat): nat {
    if id == 1 || id == 2 then OTHER_OFF else if id == 4 || id == 5 || id == 8 then NORMAL_OFF else 0
  }

  /** The status that warning `id` shows. */
  function Shows(id: nat, was: Status): Status {
    if id == 1 then SlaverUltraLowPower else if id == 2 then SlaverWaterAlarmActive
    else if id == 3 then MasterLostPeak else if id == 4 then MasterWaterAlarmActive
    else if id == 5 then Offline else if id == 6 || id == 9 then MotoFail
    else if id == 8 then NTCWarning else was
  }

  ghost predicate Warned(v: Valve, w: Valve, id: nat)
    requires 1 <= id <= 9
  {
    if PRIORITIES[id] < v.prio then w == v
    else if id == 5 && v.status.Offline? then w == v.(prio := 5)
    else if ShutReason(id) == 0 then w == v.(prio := PRIORITIES[id], status := Shows(id, v.status))
    else ShutDown(v, w, ShutReason(id)) && w.prio == PRIORITIES[id] && w.status == Shows(id, v.status) && w.p == v.p
  }

  lemma TableLaw(id: nat, now: Status)
    requires 1 <= id <= 9
    ensures Priority(id) == PRIORITIES[id]
    ensures Callback(id, now) ==
      if id == 7 || (id == 5 && now.Offline?) then Nothing
      else if ShutReason(id) == 0 then Show(Shows(id, now))
      else CloseAndShow(ShutReason(id), Shows(id, now))
  {}

  lemma AcceptedIs(v: Valve, id: nat, e: Effect)
    requires 1 <= id <= 9 && e == Callback(id, v.status)
    ensures WarningEnable(v, id) == if PRIORITIES[id] < v.prio then v else Apply(v.(prio := PRIORITIES[id]), e)
  {
    TableLaw(id, v.status);
  }

  /** Status, priority and probe do not matter to being shut. */
  lemma ShutSame(v: Valve, w: Valve, v1: Valve, w1: Valve, act: nat)
    requires ShutDown(v, w, act)
    requires v1 == v.(prio := v1.prio, status := v1.status, p := v1.p)
    requires w1 == w.(prio := w1.prio, status := w1.status, p := w1.p)
    ensures ShutDown(v1, w1, act)
  {}

  lemma ShutAndShow(v: Valve, act: nat, st: Status, p: nat)
    requires Ok(v)
    ensures var w := Apply(v.(prio := p), CloseAndShow(act, st));
      ShutDown(v, w, act) && w.prio == p && w.status == st && w.p == v.p
  {
    var u := v.(prio := p);
    var w := MotoClose(u, act);
    CloseLaw(u, act);
    ShutSame(u, w, v, w.(status := st), act);
  }

  /** Warning_Enable: refused while a warning of higher priority is active; 1 and 2 shut and lock, 4, 5 and 8
      shut, the rest only show. */
  lemma WarningLaw(v: Valve, id: nat)
    requires Ok(v) && 1 <= id <= 9
    ensures Warned(v, WarningEnable(v, id), id)
  {
    TableLaw(id, v.status);
    AcceptedIs(v, id, Callback(id, v.status));
    if ShutReason(id) != 0 {
      ShutAndShow(v, ShutReason(id), Shows(id, v.status), PRIORITIES[id]);
    }
  }

  /** Warning_Disable: no warning, the probe forgotten, the status that of the valve. */
  lemma DisableLaw(v: Valve)
    ensures WarningDisable(v) == Calm(v)
  {}

  /* ---- The valve exercise ---- */

  /** The end of the first motor's exercise: it has failed iff fewer than two edges came; warning 6 is raised
      unless the other motor has failed, too. */
  ghost predicate Turned1(v: Valve, w: Valve) {
    var warned := v.m.turn1 < 2 && !v.m.fail2 && v.prio <= 3;
    && w.m.fail1 == (v.m.turn1 < 2)
    && w.m.alarm == (if v.m.turn1 < 2 then v.m.alarm || !v.m.fail2 else v.m.alarm && v.m.fail2)
    && w.m == v.m.(pin1 := true, irq1 := false, keyPause := false, waterPause := false, fail1 := w.m.fail1,
                   alarm := w.m.alarm)
    && w == v.(m := w.m, t := v.t.(det1 := false), prio := if warned then 3 else v.prio,
               status := if warned then MotoFail else v.status)
  }

  lemma Turn1Law(v: Valve)
    ensures Turned1(v, Turn1Timer(v))
  {
    if v.m.turn1 < 2 && !v.m.fail2 {
      AcceptedIs(Unmask1(v), 6, Show(MotoFail));
    }
  }

  /** The end of the second one's: alarm and warning 9 iff it has failed. */
  ghost predicate Turned2(v: Valve, w: Valve) {
    var warned := v.m.turn2 < 2 && v.prio <= 3;
    && w.m.fail2 == w.m.alarm == (v.m.turn2 < 2)
    && w.m == v.m.(pin2 := true, irq2 := false, keyPause := false, waterPause := false, fail2 := w.m.fail2,
                   alarm := w.m.alarm)
    && w == v.(m := w.m, t := v.t.(det2 := false), prio := if warned then 3 else v.prio,
               status := if warned then MotoFail else v.status)
  }

  lemma Turn2Law(v: Valve)
    ensures Turned2(v, Turn2Timer(v))
  {
    if v.m.turn2 < 2 {
      AcceptedIs(Unmask2(v), 9, Show(MotoFail));
    }
  }

  /** The edge counters are bytes. */
  lemma EdgeLaw(v: Valve)
    requires v.m.turn1 < 256 && v.m.turn2 < 256
    ensures CountEdge1(v) == v.(m := v.m.(turn1 := if v.m.turn1 == 255 then 0 else v.m.turn1 + 1))
    ensures CountEdge2(v) == v.(m := v.m.(turn2 := if v.m.turn2 == 255 then 0 else v.m.turn2 + 1))
  {}

  /** The turning time is over: the motor is driven again and watched. */
  lemma ActLaw(v: Valve)
    ensures Act1(v) == v.(m := v.m.(pin1 := true), t := v.t.(act1 := false, det1 := true))
    ensures Act2(v) == v.(m := v.m.(pin2 := true), t := v.t.(act2 := false, det2 := true))
  {}

  /* ---- Power on ---- */

  ghost predicate Booted(moto: nat, w: Valve, slaveAlarm: bool) {
    if slaveAlarm || moto == OTHER_OFF then
      && AtRest(w) && w.lastFlag == w.moto == OTHER_OFF
      && if slaveAlarm then w.status == SlaverWaterAlarmActive && w.prio == 8 else w.status == Close && w.prio == 0
    else
      w.open && w.m.pin1 && w.m.pin2 && w.lastFlag == w.moto == NORMAL_OPEN && w.status == Open && w.prio == 0
  }

  /** Moto_Init after a reset: a pending slave alarm or a lock keeps the valve shut and locked, else it opens. */
  lemma BootLaw(moto: nat, factory: bool, slaveAlarm: bool)
    ensures Booted(moto, Boot(PowerOn(moto, factory), slaveAlarm), slaveAlarm)
  {
    var v := PowerOn(moto, factory);
    if slaveAlarm {
      WarningLaw(v, 2);
    }
  }

  /* ---- Keys ---- */

  /** The ON key opens a shut valve unless it is locked or a slave's closing still stands, and ends the display
      of a lost probe. */
  ghost predicate KeyedOn(v: Valve, w: Valve) {
    var locked := v.lastFlag == OTHER_OFF;
    if v.status == Close && !v.lastClose && !locked then OpenedUp(v, w, NORMAL_OPEN) && w.prio == v.prio && w.p == v.p
    else if v.status == MasterLostPeak then
      if locked then w == v.(status := Open) else OpenedUp(v, w, NORMAL_OPEN) && w.prio == v.prio && w.p == v.p
    else w == v
  }

  lemma KeyOnLaw(v: Valve)
    ensures KeyedOn(v, KeyOn(v))
  {
    OpenLaw(v, NORMAL_OPEN);
    OpenLaw(v.(status := Open), NORMAL_OPEN);
  }

  /** No warning, the probe forgotten, the status that of the valve. */
  function Calm(v: Valve): Valve { v.(prio := 0, p := Probe(0, 0, 0), status := if v.open then Open else Close) }

  /** The OFF key shuts under Open and MasterLostPeak and acknowledges water that is gone; in factory mode it takes
      back every warning and exercises the valve. */
  ghost predicate KeyedOff(v: Valve, w: Valve, high1: bool, high2: bool) {
    if v.factory then Exercised(Calm(v), w, high1, high2)
    else if v.status == Open then
      ShutDown(v.(lastClose := false), w, NORMAL_OFF) && w.prio == v.prio && w.p == v.p
      && w.status == (if v.lastFlag == OTHER_OFF then Open else Close)
    else if v.status == MasterLostPeak then
      ShutDown(v, w, NORMAL_OFF) && w.prio == v.prio && w.p == v.p && w.status == Close
    else if v.status == MasterWaterAlarmDeActive then w == Calm(v)
    else w == v
  }

  lemma KeyOffLaw(v: Valve, high1: bool, high2: bool)
    requires Ok(v)
    ensures KeyedOff(v, KeyOff(v, high1, high2), high1, high2)
  {
    if v.factory {
      DisableLaw(v);
      DetectLaw(Calm(v), high1, high2);
    } else if v.status == Open {
      CloseLaw(v.(lastClose := false), NORMAL_OFF);
    } else if v.status == MasterLostPeak {
      CloseLaw(v, NORMAL_OFF);
    }
  }

  /** Held, it starts the learning mode from Open or Close and ends it from Learn, as its timer does. */
  lemma LearnLaw(v: Valve)
    ensures KeyOffLong(v) ==
      if v.status == Open || v.status == Close then v.(status := Learn, learning := true, t := v.t.(learn := true))
      else if v.status == Learn then Calm(v.(learning := false, t := v.t.(learn := false)))
      else v
    ensures LearnExpires(v) == Calm(v.(learning := false, t := v.t.(learn := false)))
  {}

  /* ---- The water probe ---- */

  /** What the two pins tell while the probe is not masked: 1 unplugged, 2 wet, 0 dry. */
  function Level(v: Valve, on: bool, loss: bool): nat {
    if v.m.waterPause then 0 else if loss then 1 else if on then 0 else 2
  }

  ghost predicate Wet(v: Valve, w: Valve, stat: nat) {
    w.p == Probe(2, 2, stat) &&
    if v.status == Learn || v.prio > 7 then w == v.(p := w.p)
    else ShutDown(v, w, NORMAL_OFF) && w.status == MasterWaterAlarmActive && w.prio == 7
  }

  function Lost(v: Valve): Valve {
    if v.status == Learn || v.prio > 1 then v.(p := Probe(1, 1, 4))
    else v.(p := Probe(1, 1, 4), status := MasterLostPeak, prio := 1)
  }

  function Dried(v: Valve): Valve {
    v.(p := Probe(0, 2, 1), status := if v.status == Learn then Learn else MasterWaterAlarmDeActive)
  }

  function PluggedIn(v: Valve): Valve {
    v.(p := Probe(0, 0, 16),
       status := if v.status == Open || v.status == Close || v.status == MasterLostPeak
                 then (if v.open then Open else Close) else v.status)
  }

  /** One scan of the probe, from what it showed last (`past`), what was latched last (`stat`) and the reading
      `r` that is there now. */
  ghost predicate Scanned(v: Valve, w: Valve, r: nat) {
    var past, stat := v.p.past, v.p.stat;
    if r == 2 && past == 0 && stat != 8 then Wet(v, w, 8)
    else if r == 2 && past == 1 && stat != 32 then Wet(v, w, 32)
    else if r == 1 && past == 0 && stat != 4 then w == Lost(v)
    else if r == 0 && past == 2 && stat != 1 then w == Dried(v)
    else if r == 0 && past == 1 && stat != 16 then w == PluggedIn(v)
    else w == v.(p := v.p.(now := r, stat := if r == 1 && past == 2 then 2 else stat))
  }

  /** Warning 4, spelled out. */
  lemma WaterWarning(v: Valve)
    requires Ok(v)
    ensures var w := WarningEnable(v, 4);
      w.p == v.p &&
      if v.prio > 7 then w == v else ShutDown(v, w, NORMAL_OFF) && w.status == MasterWaterAlarmActive && w.prio == 7
  {
    WarningLaw(v, 4);
  }

  lemma PeakIs(v: Valve, kind: nat, stat: nat)
    requires (kind == 2 || kind == 4) && v.p.now == 2 && v.p.stat != stat
    ensures var w := if v.status == Learn then v else WarningEnable(v, 4);
      w.p == v.p ==> PeakEdge(v, kind, stat) == w.(p := Probe(2, 2, stat))
  {}

  lemma WetLaw(v: Valve, was: Probe, kind: nat, stat: nat)
    requires Ok(v) && (kind == 2 || kind == 4) && v.p.now == 2 && v.p.stat != stat
    ensures Wet(v.(p := was), PeakEdge(v, kind, stat), stat)
  {
    PeakIs(v, kind, stat);
    WaterWarning(v);
    if v.status != Learn && v.prio <= 7 {
      var w := WarningEnable(v, 4);
      ShutSame(v, w, v.(p := was), w.(p := Probe(2, 2, stat)), NORMAL_OFF);
    }
  }

  lemma LostLaw(v: Valve)
    requires v.p.now == 1 && v.p.stat != 4
    ensures PeakEdge(v, 1, 4) == Lost(v)
  {
    AcceptedIs(v, 3, Show(MasterLostPeak));
  }

  lemma BackLaw(v: Valve)
    requires v.p.now == 0 && v.p.stat != 16
    ensures PeakEdge(v, 0, 16) == PluggedIn(v)
  {}

  lemma DriedLaw(v: Valve)
    requires v.p.now == 0 && v.p.past == 2
    ensures WarningWithPeak(v.(p := v.p.(stat := 1)), 3) == Dried(v)
  {}

  lemma EdgeIs(v: Valve)
    ensures v.p.past == 0 && v.p.now == 2 ==> WaterEdge(v) == PeakEdge(v, 2, 8)
    ensures v.p.past == 1 && v.p.now == 2 ==> WaterEdge(v) == PeakEdge(v, 4, 32)
    ensures v.p.past == 0 && v.p.now == 1 ==> WaterEdge(v) == PeakEdge(v, 1, 4)
    ensures v.p.past == 1 && v.p.now == 0 ==> WaterEdge(v) == PeakEdge(v, 0, 16)
    ensures v.p.past == 2 && v.p.now == 0 && v.p.stat != 1 ==>
      WaterEdge(v) == WarningWithPeak(v.(p := v.p.(stat := 1)), 3)
  {}

  lemma NoEdge(v: Valve)
    requires var (r, past, stat) := (v.p.now, v.p.past, v.p.stat);
      && !(r == 2 && past == 0 && stat != 8) && !(r == 2 && past == 1 && stat != 32)
      && !(r == 1 && past == 0 && stat != 4) && !(r == 0 && past == 2 && stat != 1)
      && !(r == 0 && past == 1 && stat != 16)
    ensures WaterEdge(v) == v.(p := v.p.(stat := if v.p.now == 1 && v.p.past == 2 then 2 else v.p.stat))
  {}

  lemma ScanStep(v: Valve, was: Probe)
    requires Ok(v) && v.p == was.(now := v.p.now)
    ensures Scanned(v.(p := was), WaterEdge(v), v.p.now)
  {
    var r, past, stat := v.p.now, v.p.past, v.p.stat;
    EdgeIs(v);
    if r == 2 && past == 0 && stat != 8 {
      WetLaw(v, was, 2, 8);
    } else if r == 2 && past == 1 && stat != 32 {
      WetLaw(v, was, 4, 32);
    } else if r == 1 && past == 0 && stat != 4 {
      LostLaw(v);
    } else if r == 0 && past == 2 && stat != 1 {
      DriedLaw(v);
    } else if r == 0 && past == 1 && stat != 16 {
      BackLaw(v);
    } else {
      NoEdge(v);
    }
  }

  /** waterscan_timer_callback: water newly seen shuts the valve and is shown, a lost probe is only shown, drying
      is shown, a probe plugged in again gives the display back; nothing else moves the valve. */
  lemma WaterLaw(v: Valve, on: bool, loss: bool)
    requires Ok(v)
    ensures Scanned(v, WaterTick(v, on, loss), Level(v, on, loss))
  {
    var v1 := v.(p := v.p.(now := Level(v, on, loss)));
    assert CoreOf(v1) == CoreOf(v) && v1.(p := v.p) == v;
    ScanStep(v1, v.p);
  }

  /* ---- The freeze sensor ---- */

  /** Below 1.153 V the alarm remembers the valve and shuts it. */
  ghost predicate Froze(v: Valve, w: Valve, volt: real) {
    if volt < 1.153 && v.status != NTCWarning then Warned(v.(ntcState := v.open), w, 8) else w == v
  }

  /** From 1.168 V on the valve is put back. */
  ghost predicate Thawed(v: Valve, w: Valve, volt: real) {
    if volt < 1.168 || v.status != NTCWarning then w == v
    else if !v.ntcState then ShutDown(Calm(v), w, NORMAL_OFF) && w.prio == 0
    else if v.lastFlag == OTHER_OFF then w == Calm(v)
    else OpenedUp(Calm(v), w, NORMAL_OPEN) && w.prio == 0
  }

  /** ntc_scan_timer_callback reads the voltage twice. */
  ghost predicate Sensed(v: Valve, w: Valve, volt1: real, volt2: real) {
    exists u :: Froze(v, u, volt1) && Thawed(u, w, volt2)
  }

  lemma NtcAlarmLaw(v: Valve, volt: real)
    requires Ok(v)
    ensures Froze(v, NtcAlarm(v, volt), volt)
  {
    WarningLaw(v.(ntcState := v.open), 8);
  }

  lemma NtcRestoreLaw(v: Valve, volt: real)
    requires Ok(v)
    ensures Thawed(v, NtcRestore(v, volt), volt)
  {
    DisableLaw(v);
    OpenLaw(Calm(v), NORMAL_OPEN);
    CloseLaw(Calm(v), NORMAL_OFF);
  }

  lemma NtcLaw(v: Valve, volt1: real, volt2: real)
    requires Ok(v)
    ensures Sensed(v, NtcTick(v, volt1, volt2), volt1, volt2)
  {
    var u := NtcAlarm(v, volt1);
    NtcAlarmKeeps(v, volt1);
    NtcAlarmLaw(v, volt1);
    NtcRestoreLaw(u, volt2);
  }

  /* ---- Commands by radio ---- */

  /** A handshake: battery level 1 raises warning 7, level 2 warning 1, unless the door controller sends it. */
  lemma BatteryLaw(v: Valve, isDoor: bool, data: int)
    requires Ok(v)
    ensures var w := Battery(v, isDoor, data);
      if isDoor || (data != 1 && data != 2) then w == v else Warned(v, w, if data == 1 then 7 else 1)
  {
    WarningLaw(v, 7);
    WarningLaw(v, 1);
  }

  /** Water at a slave raises warning 2 unless it is shown already. */
  lemma WaterReportLaw(v: Valve)
    requires Ok(v)
    ensures var w := WaterReport(v); if v.status == SlaverWaterAlarmActive then w == v else Warned(v, w, 2)
  {
    WarningLaw(v, 2);
  }

  /** Data 3 starts the learning mode from Open or Close. */
  lemma LearnCommandLaw(v: Valve, data: int)
    ensures LearnCommand(v, data) ==
      if data == 3 && (v.status == Open || v.status == Close)
      then v.(status := Learn, learning := true, t := v.t.(learn := true)) else v
  {}

  /** A door's opening: opens under Open and Close, the lock notwithstanding. */
  lemma OpenCommandLaw(v: Valve)
    ensures var w := OpenCommand(v);
      if v.status == Open || v.status == Close
      then OpenedUp(v.(lastClose := false), w, OTHER_OPEN) && w.prio == v.prio && w.p == v.p else w == v
  {
    OpenLaw(v, OTHER_OPEN);
  }

  /** A door's closing: takes warnings back if it silenced the last slave alarm, then shuts and locks under Open
      and Close. */
  lemma CloseCommandLaw(v: Valve, silenced: bool)
    requires Ok(v)
    ensures var w := CloseCommand(v, silenced);
      if silenced || v.status == Open || v.status == Close then
        ShutDown(v.(lastClose := true), w, OTHER_OFF) && w.status == Close && w.prio == 0 && w.p == Probe(0, 0, 0)
      else w == v
  {
    var u := Calm(v).(lastClose := true);
    DisableLaw(v);
    DisableLaw(WarningDisable(v));
    CloseLaw(u, OTHER_OFF);
    ShutSame(u, MotoClose(u, OTHER_OFF), v.(lastClose := true), MotoClose(u, OTHER_OFF), OTHER_OFF);
  }

  /** Command 8: data 0 starts the delayed closing of an open valve, anything else calls it off; nothing moves. */
  lemma DelayLaw(v: Valve, data: int)
    ensures DelayCommand(v, data) ==
      v.(t := v.t.(delay := if data != 0 then false else v.t.delay || v.status == Open))
  {}

  /** The delay is over: shut and locked. */
  ghost predicate Delayed(v: Valve, w: Valve) {
    ShutDown(v.(t := v.t.(delay := false)), w, OTHER_OFF) && w.status == Close && w.prio == v.prio && w.p == v.p
  }

  lemma DelayExpiresLaw(v: Valve)
    requires Ok(v)
    ensures Delayed(v, DelayExpires(v))
  {
    CloseLaw(v.(t := v.t.(delay := false)), OTHER_OFF);
  }

  /** The gateway: data 0 shuts and locks, anything else opens, both under Open and Close only. */
  ghost predicate Ordered(v: Valve, w: Valve, data: int) {
    if v.status != Open && v.status != Close then w == v
    else if data != 0 then OpenedUp(v, w, OTHER_OPEN) && w.prio == v.prio && w.p == v.p
    else ShutDown(v, w, OTHER_OFF) && w.status == Close && w.prio == v.prio && w.p == v.p
  }

  lemma GatewayLaw(v: Valve, data: int)
    requires Ok(v)
    ensures Ordered(v, GatewayCommand(v, data), data)
  {
    if data != 0 {
      OpenLaw(v, OTHER_OPEN);
    } else {
      CloseLaw(v, OTHER_OFF);
    }
  }
}

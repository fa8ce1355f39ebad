/** The valve controller: applications/Moto.c, Status.c, key.c, ADCwork.c and Work.c, on the globals
    those files share. Every handler and timer callback is one step. */
module ValveModel {

  /** Last valve action, as stored in LastFlag and under the flash key "Moto". */
  const NORMAL_OFF: nat := 1
  const OTHER_OFF: nat := 2
  const NORMAL_OPEN: nat := 3
  const OTHER_OPEN: nat := 4

  /** enum Device_Status */
  datatype Status =
    | Close | Open | SlaverLowPower | SlaverUltraLowPower | SlaverWaterAlarmActive | MasterLostPeak
    | MasterWaterAlarmActive | MasterWaterAlarmDeActive | NTCWarning | MotoFail | Learn | Offline

  /** Pending one-shot timers. */
  datatype Timers = Timers(act1: bool, act2: bool, det1: bool, det2: bool, detect: bool, delay: bool, learn: bool)

  /** Drive pins, edge interrupts, edge counters and the masks set during a valve exercise. */
  datatype Motor = Motor(pin1: bool, pin2: bool, irq1: bool, irq2: bool, turn1: nat, turn2: nat,
                         fail1: bool, fail2: bool, alarm: bool, keyPause: bool, waterPause: bool)

  /** The water probe's edge detector: WarningNowStatus, WarningPastStatus, WarningStatus. */
  datatype Probe = Probe(now: nat, past: nat, stat: nat)

  /** `open` is ValveStatus, `moto` the value stored in flash under "Moto", `prio` the priority of the
      active warning. */
  datatype Valve = Valve(status: Status, open: bool, lastFlag: nat, moto: nat, prio: nat, lastClose: bool,
                         learning: bool, ntcState: bool, factory: bool, t: Timers, m: Motor, p: Probe)

  /** RAM after a reset, with LastFlag reloaded; pins low, no timer running. */
  function PowerOn(moto: nat, factory: bool): Valve {
    Valve(Close, false, moto, moto, 0, false, false, false, factory,
          Timers(false, false, false, false, false, false, false),
          Motor(false, false, false, false, 0, 0, false, false, false, false, false),
          Probe(0, 0, 0))
  }

  /* ---- Moto.c ---- */

  /** The lock: after OtherOff only OtherOpen may open. */
  predicate MayOpen(v: Valve, act: nat) { v.lastFlag != OTHER_OFF || act == OTHER_OPEN }

  function Opened(v: Valve, act: nat): Valve {
    v.(status := Open, open := true, lastFlag := act, moto := act, m := v.m.(pin1 := true, pin2 := true))
  }

  function MotoInitOpen(v: Valve, act: nat): Valve {
    if MayOpen(v, act) then Opened(v, act) else v
  }

  function MotoOpen(v: Valve, act: nat): Valve {
    if MayOpen(v, act) then
      var v1 := Opened(v, act);
      v1.(t := v1.t.(delay := false, detect := v1.t.detect || act == NORMAL_OPEN))
    else v
  }

  function MotoClose(v: Valve, act: nat): Valve {
    if v.lastFlag != OTHER_OFF then
      v.(status := Close, open := false, lastFlag := act, moto := act,
         m := v.m.(pin1 := false, pin2 := false, irq1 := false, irq2 := false, keyPause := false, waterPause := false),
         t := v.t.(delay := false, act1 := false, act2 := false, det1 := false, det2 := false))
    else if act == OTHER_OFF then
      v.(status := Close, open := false, t := v.t.(delay := false))
    else v
  }

  /** The exercise: motors whose end switch reads high are driven back for a while. */
  function MotoDetect(v: Valve, senor1: bool, senor2: bool): Valve {
    if !v.open then v
    else
      var any := senor1 || senor2;
      v.(m := v.m.(turn1 := 0, turn2 := 0, fail1 := false, fail2 := false,
                   keyPause := v.m.keyPause || any, waterPause := v.m.waterPause || any,
                   irq1 := v.m.irq1 || senor1, irq2 := v.m.irq2 || senor2,
                   pin1 := v.m.pin1 && !senor1, pin2 := v.m.pin2 && !senor2),
         t := v.t.(act1 := v.t.act1 || senor1, act2 := v.t.act2 || senor2))
  }

  function Act1(v: Valve): Valve {
    v.(m := v.m.(pin1 := true), t := v.t.(act1 := false, det1 := true))
  }

  function Act2(v: Valve): Valve {
    v.(m := v.m.(pin2 := true), t := v.t.(act2 := false, det2 := true))
  }

  /** The start of Turn1_Timer_Callback and Turn2_Timer_Callback: unmask, stop counting, drive again. */
  function Unmask1(v: Valve): Valve {
    v.(m := v.m.(keyPause := false, waterPause := false, irq1 := false, pin1 := true), t := v.t.(det1 := false))
  }

  function Unmask2(v: Valve): Valve {
    v.(m := v.m.(keyPause := false, waterPause := false, irq2 := false, pin2 := true), t := v.t.(det2 := false))
  }

  function Turn1Timer(v: Valve): Valve {
    var v1 := Unmask1(v);
    if v.m.turn1 < 2 then
      if v.m.fail2 then v1.(m := v1.m.(fail1 := true))
      else var w := WarningEnable(v1, 6); w.(m := w.m.(alarm := true, fail1 := true))
    else
      v1.(m := v1.m.(alarm := v1.m.alarm && v1.m.fail2, fail1 := false))
  }

  function Turn2Timer(v: Valve): Valve {
    var v1 := Unmask2(v);
    if v.m.turn2 < 2 then
      var w := WarningEnable(v1, 9);
      w.(m := w.m.(fail2 := true, alarm := true))
    else
      v1.(m := v1.m.(fail2 := false, alarm := false))
  }

  /** Turn1_Edge_Callback and Turn2_Edge_Callback: 8-bit counters. */
  function CountEdge1(v: Valve): Valve { v.(m := v.m.(turn1 := (v.m.turn1 + 1) % 256)) }
  function CountEdge2(v: Valve): Valve { v.(m := v.m.(turn2 := (v.m.turn2 + 1) % 256)) }

  function DetectExpires(v: Valve, senor1: bool, senor2: bool): Valve {
    MotoDetect(v.(t := v.t.(detect := false)), senor1, senor2)
  }

  /** Moto_Init: a pending slave alarm closes; otherwise the valve opens unless it is locked. */
  function Boot(v: Valve, slaveAlarm: bool): Valve {
    if slaveAlarm then WarningEnable(v, 2)
    else if v.lastFlag != OTHER_OFF then MotoInitOpen(v, NORMAL_OPEN)
    else v
  }

  /* ---- Status.c ---- */

  /** Priority of warning `id`, as WarningInit sets it. */
  function Priority(id: nat): nat {
    match id
    case 1 => 6 case 2 => 8 case 3 => 1 case 4 => 7 case 5 => 5 case 6 => 3 case 7 => 4 case 8 => 2 case 9 => 3
    case _ => 0
  }

  /** What the callback of a warning does: nothing, show a status, or close the valve first. */
  datatype Effect = Nothing | Show(st: Status) | CloseAndShow(act: nat, st: Status)

  function Callback(id: nat, now: Status): Effect {
    match id
    case 1 => CloseAndShow(OTHER_OFF, SlaverUltraLowPower)
    case 2 => CloseAndShow(OTHER_OFF, SlaverWaterAlarmActive)
    case 3 => Show(MasterLostPeak)
    case 4 => CloseAndShow(NORMAL_OFF, MasterWaterAlarmActive)
    case 5 => if now.Offline? then Nothing else CloseAndShow(NORMAL_OFF, Offline)
    case 6 => Show(MotoFail)
    case 8 => CloseAndShow(NORMAL_OFF, NTCWarning)
    case 9 => Show(MotoFail)
    case _ => Nothing
  }

  function Apply(v: Valve, e: Effect): Valve {
    match e
    case Nothing => v
    case Show(st) => v.(status := st)
    case CloseAndShow(act, st) => MotoClose(v, act).(status := st)
  }

  /** Warning_Enable: accepted unless a warning of higher priority is active. */
  function WarningEnable(v: Valve, id: nat): Valve {
    if Priority(id) >= v.prio then Apply(v.(prio := Priority(id)), Callback(id, v.status)) else v
  }

  function BackToNormal(v: Valve): Valve {
    v.(p := Probe(0, 0, 0), status := if v.open then Open else Close)
  }

  function WarningDisable(v: Valve): Valve { BackToNormal(v.(prio := 0)) }

  function DelayExpires(v: Valve): Valve { MotoClose(v.(t := v.t.(delay := false)), OTHER_OFF) }

  /* ---- key.c and the learning mode of Radio_Decoder.c ---- */

  predicate Normal(v: Valve) { v.status.Open? || v.status.Close? }

  function KeyOn(v: Valve): Valve {
    if v.status.Close? then (if v.lastClose then v else MotoOpen(v, NORMAL_OPEN))
    else if v.status.MasterLostPeak? then MotoOpen(v.(status := Open), NORMAL_OPEN)
    else v
  }

  function KeyOff(v: Valve, senor1: bool, senor2: bool): Valve {
    if v.factory then MotoDetect(WarningDisable(v), senor1, senor2)
    else if v.status.Open? then MotoClose(v.(lastClose := false), NORMAL_OFF)
    else if v.status.MasterLostPeak? then MotoClose(v, NORMAL_OFF).(status := Close)
    else if v.status.MasterWaterAlarmDeActive? then WarningDisable(v.(status := Close))
    else v
  }

  function StartLearn(v: Valve): Valve { v.(status := Learn, learning := true, t := v.t.(learn := true)) }

  function StopLearn(v: Valve): Valve { WarningDisable(v.(learning := false)) }

  function LearnExpires(v: Valve): Valve { StopLearn(v.(t := v.t.(learn := false))) }

  function KeyOffLong(v: Valve): Valve {
    if Normal(v) then StartLearn(v)
    else if v.status.Learn? then LearnExpires(v)
    else v
  }

  /* ---- Work.c ---- */

  function WarningWithPeak(v: Valve, kind: nat): Valve {
    if v.status.Learn? then v
    else
      match kind
      case 0 => if Normal(v) || v.status.MasterLostPeak? then BackToNormal(v) else v
      case 1 => WarningEnable(v, 3)
      case 2 => WarningEnable(v, 4)
      case 3 => v.(status := MasterWaterAlarmDeActive)
      case 4 => WarningEnable(v, 4)
      case _ => v
  }

  /** Raise peak event `kind`, then latch: note that the event may have cleared the detector. */
  function PeakEdge(v: Valve, kind: nat, stat: nat): Valve {
    if v.p.stat == stat then v
    else
      var v1 := WarningWithPeak(v, kind);
      v1.(p := Probe(v1.p.now, v1.p.now, stat))
  }

  /** What the probe shows: 1 unplugged, 2 short-circuited by water, 0 dry. A paused probe reads dry. */
  function Reading(v: Valve, on: bool, loss: bool): nat {
    if v.m.waterPause then 0 else if loss then 1 else if !on then 2 else 0
  }

  /** The edge detection of waterscan_timer_callback. */
  function WaterEdge(v: Valve): Valve {
    var (past, now) := (v.p.past, v.p.now);
    if past == 2 && now == 0 then
      if v.p.stat == 1 then v else WarningWithPeak(v.(p := v.p.(stat := 1)), 3)
    else if past == 2 && now == 1 then v.(p := v.p.(stat := 2))
    else if past == 0 && now == 1 then PeakEdge(v, 1, 4)
    else if past == 0 && now == 2 then PeakEdge(v, 2, 8)
    else if past == 1 && now == 0 then PeakEdge(v, 0, 16)
    else if past == 1 && now == 2 then PeakEdge(v, 4, 32)
    else v
  }

  /** waterscan_timer_callback; `on` and `loss` are the pin levels. */
  function WaterTick(v: Valve, on: bool, loss: bool): Valve {
    WaterEdge(v.(p := v.p.(now := Reading(v, on, loss))))
  }

  /* ---- ADCwork.c ---- */

  /** The first half of ntc_scan_timer_callback: remember the valve, raise the alarm. */
  function NtcAlarm(v: Valve, volt: real): Valve {
    if volt < 1.153 && !v.status.NTCWarning? then WarningEnable(v.(ntcState := v.open), 8) else v
  }

  /** The second half: the alarm is over, restore the valve. */
  function NtcRestore(v: Valve, volt: real): Valve {
    if volt >= 1.168 && v.status.NTCWarning? then
      var v1 := WarningDisable(v);
      if v1.ntcState then MotoOpen(v1, NORMAL_OPEN) else MotoClose(v1, NORMAL_OFF)
    else v
  }

  /** ntc_scan_timer_callback; the voltage is read twice. */
  function NtcTick(v: Valve, volt1: real, volt2: real): Valve { NtcRestore(NtcAlarm(v, volt1), volt2) }

  /* ---- Valve commands by radio (Radio_Decoder.c) ---- */

  /** Handshake: a low battery warns, an empty one closes; the door controller is exempt. */
  function Battery(v: Valve, isDoor: bool, data: int): Valve {
    if data == 1 && !isDoor then WarningEnable(v, 7)
    else if data == 2 && !isDoor then WarningEnable(v, 1)
    else v
  }

  function WaterReport(v: Valve): Valve { if v.status.SlaverWaterAlarmActive? then v else WarningEnable(v, 2) }

  function LearnCommand(v: Valve, data: int): Valve { if data == 3 && Normal(v) then StartLearn(v) else v }

  function OpenCommand(v: Valve): Valve { if Normal(v) then MotoOpen(v, OTHER_OPEN).(lastClose := false) else v }

  /** `silenced`: this message took back the last pending slave alarm. */
  function CloseCommand(v: Valve, silenced: bool): Valve {
    var v1 := if silenced then WarningDisable(v) else v;
    if Normal(v1) then MotoClose(WarningDisable(v1).(lastClose := true), OTHER_OFF) else v1
  }

  /** Delay_Timer_CloseDoor and Delay_Timer_OpenDoor. */
  function DelayCommand(v: Valve, data: int): Valve {
    if data != 0 then v.(t := v.t.(delay := false))
    else if v.status.Open? then v.(t := v.t.(delay := true))
    else v
  }

  /** Command 2 of the gateway. */
  function GatewayCommand(v: Valve, data: int): Valve {
    if !Normal(v) then v
    else if data != 0 then MotoOpen(v, OTHER_OPEN)
    else MotoClose(v, OTHER_OFF)
  }
}

/** The whole controller: the valve, the device table, the hourly loop (applications/RTCWork.c) and the
    message handlers of radio/Radio_Decoder.c that touch both. */
module ControllerModel {
  import opened RegistryModel
  import opened ValveModel

  datatype State = State(v: Valve, r: Reg, rtcCounter: nat, rtcHours: nat)

  /* ---- RTCWork.c ---- */

  /** The hour count advances; every 120 hours the motors are exercised. */
  function Exercise(s: State, senor1: bool, senor2: bool): Valve {
    if (s.rtcHours + 1) % 0x1_0000_0000 % 120 == 0 then MotoDetect(s.v, senor1, senor2) else s.v
  }

  /** One pass of the hourly loop: the new state and the ids reported offline. */
  function Hour(s: State, senor1: bool, senor2: bool): (State, seq<nat>)
    requires Shape(s.r)
  {
    var v, r, h := Exercise(s, senor1, senor2), Tick(s.r), (s.rtcHours + 1) % 0x1_0000_0000;
    if s.rtcCounter < 24 then (State(v, r, s.rtcCounter + 1, h), [])
    else
      var (r1, ids, warn) := Sweep(r, r.num);
      (State(if warn then WarningEnable(v, 5) else v, ClearAll(r1), 0, h), ids)
  }

  /* ---- Radio_Decoder.c ---- */

  /** Some slot that is neither door nor gateway is marked dead. */
  predicate AnyDead(r: Reg)
    requires Shape(r)
  {
    exists k | 1 <= k <= r.num :: r.alive[k] == 0 && k != r.doorNum && k != r.gatewayNum
  }

  /** Offline_React */
  function OfflineReact(v: Valve, r: Reg): Valve
    requires Shape(r)
  {
    if v.status.Offline? && r.num > 0 && !AnyDead(r) then WarningDisable(v) else v
  }

  /** The table after the switch of DataSolve for registered device `d`. */
  function CommandTable(r: Reg, d: nat, command: int, data: int): (r1: Reg)
    requires Shape(r)
    ensures Shape(r1)
  {
    if command == 4 && data == 1 && d != DoorId(r) then SetSlaveAlarm(r, d, 1)
    else if command == 6 && AnySlaveAlarm(r) then SetSlaveAlarm(r, d, 0)
    else r
  }

  /** The valve after the switch of DataSolve for registered device `d`. */
  function CommandValve(v: Valve, r: Reg, d: nat, command: int, data: int): Valve
    requires Shape(r)
  {
    match command
    case 2 => Battery(v, d == DoorId(r), data)
    case 3 => LearnCommand(v, data)
    case 4 => if data == 1 && d != DoorId(r) then WaterReport(v) else v
    case 5 => OpenCommand(v)
    case 6 => CloseCommand(v, AnySlaveAlarm(r) && !AnySlaveAlarm(SetSlaveAlarm(r, d, 0)))
    case 8 => DelayCommand(v, data)
    case _ => v
  }

  /** DataSolve */
  function DataSolve(s: State, d: nat, command: int, data: int): State
    requires Shape(s.r)
  {
    var v1 := CommandValve(s.v, s.r, d, command, data);
    var r1 := ClearTime(CommandTable(s.r, d, command, data), d);
    s.(v := OfflineReact(v1, r1), r := r1)
  }

  /** Device_Learn */
  function DeviceLearn(r: Reg, from: int, data: int): Reg
    requires Shape(r)
  {
    var d := ToU32(from);
    if data == 1 && !Registered(r, d) then RegistryModel.Learn(r, from).0
    else if data == 2 && Registered(r, d) then SetAlive(r, d, 1)
    else r
  }

  /** NormalSolve for a frame addressed to this controller. */
  function NormalSolve(s: State, from: int, command: int, data: int): State
    requires Shape(s.r)
  {
    var d := ToU32(from);
    if s.v.learning then
      var r1 := SetAlive(s.r, d, 1);
      if command != 3 then s.(r := r1)
      else s.(r := DeviceLearn(r1, from, data), v := s.v.(t := s.v.t.(learn := true)))
    else if Registered(s.r, d) then DataSolve(s.(r := SetAlive(s.r, d, 1)), d, command, data)
    else s
  }

  /** GatewayDataSolve for a frame addressed to this controller. */
  function GatewaySolve(s: State, from: int, device: int, command: int, data: int): State
    requires Shape(s.r)
  {
    if !Registered(s.r, ToU32(from)) then s
    else if command == 2 then s.(v := GatewayCommand(s.v, data))
    else if command == 6 then s.(r := Delete(s.r, ToU32(device)))
    else s
  }

  /** Reset: the table and LastFlag are reloaded from flash, then Moto_Init runs. */
  function Reboot(s: State, factory: bool): State
    requires Shape(s.r)
  {
    var r := Load(s.r.flash);
    State(Boot(PowerOn(s.v.moto, factory), AnySlaveAlarm(r)), r, 0, 0)
  }

  /** DeleteAllDevice clears the table, LastFlag and all of flash; the reset that follows is a step of
      its own. */
  function Wipe(s: State): State { s.(r := Blank(), v := s.v.(lastFlag := 0, moto := 0)) }

  /* ---- Events ---- */

  datatype Event =
    | KeyOnDown | KeyOffDown(senor1: bool, senor2: bool) | KeyOffHeld | BothKeysHeld
    | LearnTimeout | Act1Fires | Act2Fires | Det1Fires | Det2Fires
    | DetectFires(senor1: bool, senor2: bool) | DelayFires | Edge1 | Edge2
    | WaterScan(on: bool, loss: bool) | NtcScan(volt1: real, volt2: real) | HourPassed(senor1: bool, senor2: bool)
    | NormalMessage(from: int, command: int, data: int)
    | GatewayMessage(from: int, device: int, command: int, data: int)
    | Reset(factory: bool)

  predicate IsLong(x: int) { -0x8000_0000 <= x < 0x8000_0000 }

  /** A one-shot timer fires only while pending, an edge interrupt only while enabled; message fields
      are C longs. */
  predicate Possible(s: State, e: Event) {
    match e
    case LearnTimeout => s.v.t.learn
    case Act1Fires => s.v.t.act1
    case Act2Fires => s.v.t.act2
    case Det1Fires => s.v.t.det1
    case Det2Fires => s.v.t.det2
    case DetectFires(_, _) => s.v.t.detect
    case DelayFires => s.v.t.delay
    case Edge1 => s.v.m.irq1
    case Edge2 => s.v.m.irq2
    case NormalMessage(from, _, _) => IsLong(from)
    case GatewayMessage(from, device, _, _) => IsLong(from) && IsLong(device)
    case _ => true
  }

  function Step(s: State, e: Event): State
    requires Shape(s.r)
  {
    match e
    case KeyOnDown => s.(v := KeyOn(s.v))
    case KeyOffDown(a, b) => s.(v := KeyOff(s.v, a, b))
    case KeyOffHeld => s.(v := KeyOffLong(s.v))
    case BothKeysHeld => Wipe(s)
    case LearnTimeout => s.(v := LearnExpires(s.v))
    case Act1Fires => s.(v := Act1(s.v))
    case Act2Fires => s.(v := Act2(s.v))
    case Det1Fires => s.(v := Turn1Timer(s.v))
    case Det2Fires => s.(v := Turn2Timer(s.v))
    case DetectFires(a, b) => s.(v := DetectExpires(s.v, a, b))
    case DelayFires => s.(v := DelayExpires(s.v))
    case Edge1 => s.(v := CountEdge1(s.v))
    case Edge2 => s.(v := CountEdge2(s.v))
    case WaterScan(on, loss) => s.(v := WaterTick(s.v, on, loss))
    case NtcScan(volt1, volt2) => s.(v := NtcTick(s.v, volt1, volt2))
    case HourPassed(a, b) => Hour(s, a, b).0
    case NormalMessage(from, command, data) => NormalSolve(s, from, command, data)
    case GatewayMessage(from, device, command, data) => GatewaySolve(s, from, device, command, data)
    case Reset(factory) => Reboot(s, factory)
  }
}

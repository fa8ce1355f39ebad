/** What the hourly loop, the messages and a restart do to valve and table: laws of applications/RTCWork.c,
    radio/Radio_Decoder.c and Moto_Init on the fields alone. */
module ControllerLaws {
  import opened RegistryModel
  import opened RegistryInv
  import opened RegistryLaws
  import opened ValveModel
  import opened ValveInv
  import opened ValveLaws
  import opened ControllerModel
  import opened ControllerInv
  import opened OfflineWindow

  /* ---- The hourly loop ---- */

  /** An hour: the count goes on as a 32-bit number and exercises the valve at every multiple of 120; each 25th
      pass looks for lost devices and warns iff an ordinary one is lost. */
  ghost predicate HourOf(s: State, s1: State, high1: bool, high2: bool)
    requires Shape(s.r)
  {
    && s1.rtcHours == (s.rtcHours + 1) % 0x1_0000_0000
    && s1.rtcCounter == (if s.rtcCounter == 24 then 0 else s.rtcCounter + 1)
    && exists v :: HourVia(s, s1, v, high1, high2)
  }

  /** `v` is the valve between exercise and warning. */
  ghost predicate HourVia(s: State, s1: State, v: Valve, high1: bool, high2: bool)
    requires Shape(s.r)
  {
    && (if s1.rtcHours % 120 == 0 then Exercised(s.v, v, high1, high2) else v == s.v)
    && if s.rtcCounter == 24 && AnyLost(Tick(s.r), s.r.num) then Warned(v, s1.v, 5) else s1.v == v
  }

  lemma HourLaw(s: State, high1: bool, high2: bool)
    requires Safe(s)
    ensures HourOf(s, Hour(s, high1, high2).0, high1, high2)
  {
    var v := Exercise(s, high1, high2);
    DetectKeeps(s.v, high1, high2);
    DetectLaw(s.v, high1, high2);
    if s.rtcCounter == 24 {
      TickOk(s.r);
      SweepWarns(Tick(s.r), s.r.num);
      WarningLaw(v, 5);
    }
    assert HourVia(s, Hour(s, high1, high2).0, v, high1, high2);
  }

  lemma TickOk(r: Reg)
    requires TableOk(r)
    ensures TableOk(Tick(r)) && Tick(r).num == r.num
  {}

  /* ---- Restart ---- */

  ghost predicate AnyPending(r: Reg)
    requires Shape(r)
  {
    exists k :: 1 <= k <= r.num && Pending(r, k)
  }

  /** A restart with a slave alarm stored, or locked, keeps the valve shut and locked; any other opens it. */
  lemma RestartLaw(s: State, factory: bool)
    requires Safe(s)
    ensures var s1 := Reboot(s, factory);
      && Booted(s.v.moto, s1.v, AnyPending(s.r)) && SameTable(s1.r, s.r)
      && s1.rtcCounter == s1.rtcHours == 0 && s1.v.factory == factory
  {
    ReloadReproduces(s.r);
    PendingLaw(s.r);
    BootLaw(s.v.moto, factory, AnyPending(s.r));
    BootFactory(s.v.moto, factory, AnyPending(s.r));
  }

  lemma BootFactory(moto: nat, factory: bool, slaveAlarm: bool)
    ensures Boot(PowerOn(moto, factory), slaveAlarm).factory == factory
  {
    WarningLaw(PowerOn(moto, factory), 2);
  }

  /* ---- Messages ---- */

  /** Device d holds every alarm there is, and there is one. */
  ghost predicate LastAlarm(r: Reg, d: nat)
    requires Shape(r)
  {
    && (exists k | 1 <= k <= r.num :: r.slaveAlarm[k] != 0)
    && (forall k | 1 <= k <= r.num && r.slaveAlarm[k] != 0 :: r.id[k] == d)
  }

  /** Taking back the alarm of slot k leaves no alarm exactly if there was no other. */
  lemma SilencedIs(r: Reg, d: nat, k: nat)
    requires TableOk(r) && d != 0 && 1 <= k <= r.num && r.id[k] == d
    ensures AnySlaveAlarm(r) && !AnySlaveAlarm(SetSlaveAlarm(r, d, 0)) <==> LastAlarm(r, d)
  {
    var r1 := SetSlaveAlarm(r, d, 0);
    AlarmLaw(r, d, k, 0);
    if AnySlaveAlarm(r) && !AnySlaveAlarm(r1) {
      forall i | 1 <= i <= r.num && r.slaveAlarm[i] != 0
        ensures r.id[i] == d
      {
        assert r1.slaveAlarm[i] == 0;
      }
    }
    if LastAlarm(r, d) {
      forall i | 1 <= i <= r.num
        ensures r1.slaveAlarm[i] == 0
      {
        assert i != k ==> r.id[i] != d;
      }
    }
  }

  /** A command of the registered device d: 2 tells its battery level, 3 asks for the learning mode, 4 reports
      water, 5 opens, 6 closes, 8 delays; the door's battery and water reports do not count. */
  ghost predicate Commanded(v: Valve, w: Valve, r: Reg, d: nat, command: int, data: int)
    requires Shape(r)
  {
    var door, normal := d == DoorId(r), v.status == Open || v.status == Close;
    if command == 2 && !door && (data == 1 || data == 2) then Warned(v, w, if data == 1 then 7 else 1)
    else if command == 3 && data == 3 && normal then
      w == v.(status := ValveModel.Learn, learning := true, t := v.t.(learn := true))
    else if command == 4 && data == 1 && !door && v.status != SlaverWaterAlarmActive then Warned(v, w, 2)
    else if command == 5 && normal then
      OpenedUp(v.(lastClose := false), w, OTHER_OPEN) && w.prio == v.prio && w.p == v.p
    else if command == 6 && (normal || LastAlarm(r, d)) then
      ShutDown(v.(lastClose := true), w, OTHER_OFF) && w.status == Close && w.prio == 0 && w.p == Probe(0, 0, 0)
    else if command == 8 then w == v.(t := v.t.(delay := if data != 0 then false else v.t.delay || v.status == Open))
    else w == v
  }

  lemma CommandLaw(v: Valve, r: Reg, d: nat, k: nat, command: int, data: int)
    requires Ok(v) && TableOk(r) && d != 0 && 1 <= k <= r.num && r.id[k] == d
    ensures Commanded(v, CommandValve(v, r, d, command, data), r, d, command, data)
  {
    if command == 2 {
      BatteryLaw(v, d == DoorId(r), data);
    } else if command == 3 {
      LearnCommandLaw(v, data);
    } else if command == 4 {
      WaterReportLaw(v);
    } else if command == 5 {
      OpenCommandLaw(v);
    } else if command == 6 {
      SilencedIs(r, d, k);
      CloseCommandLaw(v, LastAlarm(r, d));
    } else if command == 8 {
      DelayLaw(v, data);
    }
  }

  /** The alarm column of the sender after a message. */
  ghost function AlarmAfter(r: Reg, d: nat, k: nat, command: int, data: int): nat
    requires Shape(r) && k < COLUMN
  {
    if command == 4 && data == 1 && d != DoorId(r) then 1
    else if command == 6 && AnySlaveAlarm(r) then 0
    else r.slaveAlarm[k]
  }

  /** A message marks its sender as alive, heard and not late, and may set or take back its alarm; nothing else
      in the table changes. */
  lemma MessageTable(s: State, from: int, d: nat, k: nat, command: int, data: int)
    requires Safe(s) && !s.v.learning && d == ToU32(from) && d != 0 && 1 <= k <= s.r.num && s.r.id[k] == d
    ensures var r, r1 := s.r, NormalSolve(s, from, command, data).r;
      r1 == r.(alive := r.alive[k := 1], got := r.got[k := 1], idTime := r.idTime[k := 0],
               slaveAlarm := r.slaveAlarm[k := AlarmAfter(r, d, k, command, data)], flash := r1.flash)
  {
    SlotOf(s.r, d, k);
    var ra := SetAlive(s.r, d, 1);
    AliveLaw(s.r, d, k, 1);
    SetAliveInv(s.r, d, 1);
    var rb := CommandTable(ra, d, command, data);
    TableAfter(ra, d, k, command, data);
    SlotOf(rb, d, k);
    ClearTimeLaw(rb, d, k);
  }

  lemma TableAfter(r: Reg, d: nat, k: nat, command: int, data: int)
    requires TableOk(r) && d != 0 && 1 <= k <= r.num && r.id[k] == d
    ensures var r1 := CommandTable(r, d, command, data);
      TableOk(r1) && r1 == r.(slaveAlarm := r.slaveAlarm[k := AlarmAfter(r, d, k, command, data)], flash := r1.flash)
  {
    if command == 4 && data == 1 && d != DoorId(r) {
      AlarmLaw(r, d, k, 1);
      SetSlaveAlarmInv(r, d, 1);
    } else if command == 6 && AnySlaveAlarm(r) {
      AlarmLaw(r, d, k, 0);
      SetSlaveAlarmInv(r, d, 0);
    } else {
      assert r.slaveAlarm[k := r.slaveAlarm[k]] == r.slaveAlarm;
    }
  }

  /** Outside the learning mode an unknown sender changes nothing. */
  lemma StrangerIgnored(s: State, from: int, device: int, command: int, data: int)
    requires Shape(s.r) && forall i | 1 <= i <= s.r.num :: s.r.id[i] != ToU32(from)
    ensures !s.v.learning ==> NormalSolve(s, from, command, data) == s
    ensures GatewaySolve(s, from, device, command, data) == s
  {
    StrangerLaw(s.r, ToU32(from), 1);
  }

  lemma AliveTwice(r: Reg, d: nat, k: nat)
    requires TableOk(r) && 1 <= k <= r.num && r.id[k] == d != 0
    ensures SetAlive(SetAlive(r, d, 1), d, 1) == SetAlive(r, d, 1) && Registered(SetAlive(r, d, 1), d)
  {
    SlotOf(r, d, k);
    AliveLaw(r, d, k, 1);
  }

  lemma LearnFlag(v: Valve, more: bool)
    ensures v.(t := v.t.(learn := v.t.learn || more)) == if more then v.(t := v.t.(learn := true)) else v
  {}

  lemma LearningIs(s: State, from: int, command: int, data: int)
    requires Shape(s.r) && s.v.learning
    ensures var s1, ra := NormalSolve(s, from, command, data), SetAlive(s.r, ToU32(from), 1);
      s1.r == (if command == 3 then DeviceLearn(ra, from, data) else ra) && s1 == s.(r := s1.r, v := s1.v) &&
      s1.v == s.v.(t := s.v.t.(learn := s.v.t.learn || command == 3))
  {
    LearnFlag(s.v, command == 3);
  }

  /** In the learning mode a message of a known device marks it as alive and heard; a learning request also
      restarts the learning timer. */
  lemma LearningKnown(s: State, from: int, d: nat, k: nat, command: int, data: int)
    requires Safe(s) && s.v.learning && d == ToU32(from) && 1 <= k <= s.r.num && s.r.id[k] == d != 0
    ensures var s1 := NormalSolve(s, from, command, data);
      && s1 == s.(r := s1.r, v := s.v.(t := s.v.t.(learn := s.v.t.learn || command == 3)))
      && s1.r == s.r.(alive := s.r.alive[k := 1], got := s.r.got[k := 1], flash := s1.r.flash)
  {
    AliveLaw(s.r, d, k, 1);
    AliveTwice(s.r, d, k);
    LearningIs(s, from, command, data);
  }

  /** A message of an unknown one does nothing but a learning request, which restarts the timer and, with data 1,
      learns the sender. */
  lemma LearningStranger(s: State, from: int, d: nat, command: int, data: int)
    requires Safe(s) && s.v.learning && d == ToU32(from) && forall i | 1 <= i <= s.r.num :: s.r.id[i] != d
    ensures var s1 := NormalSolve(s, from, command, data);
      && s1 == s.(r := s1.r, v := s.v.(t := s.v.t.(learn := s.v.t.learn || command == 3)))
      && s1.r == if command == 3 && data == 1 then RegistryModel.Learn(s.r, from).0 else s.r
  {
    StrangerLaw(s.r, d, 1);
    LearningIs(s, from, command, data);
  }

  /** The gateway's commands: 2 moves the valve under Open and Close, 6 deletes a device; others do nothing. */
  ghost predicate Instructed(s: State, s1: State, device: int, command: int, data: int)
    requires Shape(s.r)
  {
    if command == 2 then s1 == s.(v := s1.v) && Ordered(s.v, s1.v, data)
    else s1 == if command == 6 then s.(r := Delete(s.r, ToU32(device))) else s
  }

  lemma GatewayMessageLaw(s: State, from: int, device: int, command: int, data: int)
    requires Safe(s) && exists i :: 1 <= i <= s.r.num && s.r.id[i] == ToU32(from)
    ensures Instructed(s, GatewaySolve(s, from, device, command, data), device, command, data)
  {
    RegisteredIff(s.r, ToU32(from));
    GatewayLaw(s.v, data);
  }

  /** Some ordinary device is marked dead. */
  ghost predicate SomeDead(r: Reg)
    requires Shape(r)
  {
    exists k | 1 <= k <= r.num :: r.alive[k] == 0 && k != r.doorNum && k != r.gatewayNum
  }

  /** A message ends the offline display iff no ordinary device is marked dead any more. */
  lemma RecoveryLaw(v: Valve, r: Reg)
    requires Shape(r)
    ensures OfflineReact(v, r) ==
      if v.status == Offline && r.num > 0 && !SomeDead(r)
      then Calm(v) else v
  {
    DisableLaw(v);
  }

  /** A message of the registered device d in slot k: the command, then the end of the offline display. */
  ghost predicate Served(s: State, s1: State, d: nat, k: nat, command: int, data: int)
    requires Shape(s.r) && Shape(s1.r) && k < COLUMN
  {
    && s1.r == s.r.(alive := s.r.alive[k := 1], got := s.r.got[k := 1], idTime := s.r.idTime[k := 0],
                    slaveAlarm := s.r.slaveAlarm[k := AlarmAfter(s.r, d, k, command, data)], flash := s1.r.flash)
    && s1 == s.(r := s1.r, v := s1.v)
    && exists v :: ServedVia(s, s1, v, d, command, data)
  }

  ghost predicate ServedVia(s: State, s1: State, v: Valve, d: nat, command: int, data: int)
    requires Shape(s.r) && Shape(s1.r)
  {
    && Commanded(s.v, v, s.r, d, command, data)
    && s1.v == if v.status == Offline && s1.r.num > 0 && !SomeDead(s1.r) then Calm(v) else v
  }

  lemma SameCommand(v: Valve, w: Valve, r: Reg, ra: Reg, d: nat, command: int, data: int)
    requires Shape(r) && Shape(ra) && Commanded(v, w, ra, d, command, data)
    requires ra.id == r.id && ra.num == r.num && ra.doorNum == r.doorNum && ra.slaveAlarm == r.slaveAlarm
    ensures Commanded(v, w, r, d, command, data)
  {
    assert LastAlarm(ra, d) == LastAlarm(r, d) && DoorId(ra) == DoorId(r);
  }

  lemma ServedLaw(s: State, from: int, d: nat, k: nat, command: int, data: int)
    requires Safe(s) && IsLong(from) && !s.v.learning
    requires d == ToU32(from) && d != 0 && 1 <= k <= s.r.num && s.r.id[k] == d
    ensures var s1 := NormalSolve(s, from, command, data); Shape(s1.r) && Served(s, s1, d, k, command, data)
  {
    var s1, ra := NormalSolve(s, from, command, data), SetAlive(s.r, d, 1);
    var v := CommandValve(s.v, ra, d, command, data);
    MessageTable(s, from, d, k, command, data);
    SlotOf(s.r, d, k);
    AliveLaw(s.r, d, k, 1);
    SetAliveInv(s.r, d, 1);
    CommandLaw(s.v, ra, d, k, command, data);
    SameCommand(s.v, v, s.r, ra, d, command, data);
    RecoveryLaw(v, s1.r);
    assert ServedVia(s, s1, v, d, command, data);
  }

  /* ---- Every event ---- */

  /** A frame from `from`; an empty slot passes for a device with id 0, which is not described. */
  ghost predicate Received(s: State, s1: State, from: int, command: int, data: int)
    requires Shape(s.r) && Shape(s1.r)
  {
    var d, timer := ToU32(from), s.v.t.(learn := s.v.t.learn || command == 3);
    && (forall k | 1 <= k <= s.r.num && s.r.id[k] == d != 0 ::
          if s.v.learning then
            && s1 == s.(r := s1.r, v := s.v.(t := timer))
            && s1.r == s.r.(alive := s.r.alive[k := 1], got := s.r.got[k := 1], flash := s1.r.flash)
          else Served(s, s1, d, k, command, data))
    && ((forall i | 1 <= i <= s.r.num :: s.r.id[i] != d) ==>
          if s.v.learning then
            && s1 == s.(r := s1.r, v := s.v.(t := timer))
            && s1.r == if command == 3 && data == 1 then RegistryModel.Learn(s.r, from).0 else s.r
          else s1 == s)
  }

  /** What an event does. */
  ghost predicate Happens(s: State, e: Event, s1: State)
    requires Shape(s.r) && Shape(s1.r)
  {
    match e
    case NormalMessage(from, command, data) => Received(s, s1, from, command, data)
    case GatewayMessage(from, device, command, data) =>
      if exists i :: 1 <= i <= s.r.num && s.r.id[i] == ToU32(from)
      then Instructed(s, s1, device, command, data) else s1 == s
    case HourPassed(high1, high2) => HourOf(s, s1, high1, high2)
    case Reset(factory) =>
      && Booted(s.v.moto, s1.v, AnyPending(s.r)) && SameTable(s1.r, s.r)
      && s1.rtcCounter == s1.rtcHours == 0 && s1.v.factory == factory
    case BothKeysHeld =>
      && s1 == s.(r := s1.r, v := s.v.(lastFlag := 0, moto := 0)) && s1.r.flash == map[]
      && s1.r.num == s1.r.doorNum == s1.r.gatewayNum == 0
    case _ => s1 == s.(v := s1.v) && Moves(s.v, e, s1.v)
  }

  /** The events that concern the valve alone. */
  ghost predicate Moves(v: Valve, e: Event, w: Valve) {
    match e
    case KeyOnDown => KeyedOn(v, w)
    case KeyOffDown(high1, high2) => KeyedOff(v, w, high1, high2)
    case KeyOffHeld =>
      w == if v.status == Open || v.status == Close
           then v.(status := ValveModel.Learn, learning := true, t := v.t.(learn := true))
           else if v.status == ValveModel.Learn then Calm(v.(learning := false, t := v.t.(learn := false))) else v
    case LearnTimeout => w == Calm(v.(learning := false, t := v.t.(learn := false)))
    case Act1Fires => w == v.(m := v.m.(pin1 := true), t := v.t.(act1 := false, det1 := true))
    case Act2Fires => w == v.(m := v.m.(pin2 := true), t := v.t.(act2 := false, det2 := true))
    case Det1Fires => Turned1(v, w)
    case Det2Fires => Turned2(v, w)
    case DetectFires(high1, high2) => Exercised(v.(t := v.t.(detect := false)), w, high1, high2)
    case DelayFires => Delayed(v, w)
    case Edge1 => w == v.(m := v.m.(turn1 := (v.m.turn1 + 1) % 256))
    case Edge2 => w == v.(m := v.m.(turn2 := (v.m.turn2 + 1) % 256))
    case WaterScan(on, loss) => Scanned(v, w, Level(v, on, loss))
    case NtcScan(volt1, volt2) => Sensed(v, w, volt1, volt2)
    case _ => true
  }

  predicate ValveOnly(e: Event) {
    !e.NormalMessage? && !e.GatewayMessage? && !e.HourPassed? && !e.Reset? && !e.BothKeysHeld?
  }

  predicate ByKey(e: Event) { e.KeyOnDown? || e.KeyOffDown? || e.KeyOffHeld? || e.LearnTimeout? }

  predicate ByMotor(e: Event) { e.Act1Fires? || e.Act2Fires? || e.Det1Fires? || e.Det2Fires? || e.Edge1? || e.Edge2? }

  lemma KeyMoves(s: State, e: Event)
    requires Ok(s.v) && Shape(s.r) && ByKey(e)
    ensures Step(s, e) == s.(v := Step(s, e).v) && Moves(s.v, e, Step(s, e).v)
  {
    match e
    case KeyOnDown => KeyOnLaw(s.v);
    case KeyOffDown(high1, high2) => KeyOffLaw(s.v, high1, high2);
    case _ => ValveLaws.LearnLaw(s.v);
  }

  lemma MotorMoves(s: State, e: Event)
    requires Ok(s.v) && Shape(s.r) && ByMotor(e)
    ensures Step(s, e) == s.(v := Step(s, e).v) && Moves(s.v, e, Step(s, e).v)
  {
    match e
    case Det1Fires => Turn1Law(s.v);
    case Det2Fires => Turn2Law(s.v);
    case _ => ActLaw(s.v);
  }

  lemma MovesLaw(s: State, e: Event)
    requires Ok(s.v) && Shape(s.r) && ValveOnly(e)
    ensures Step(s, e) == s.(v := Step(s, e).v) && Moves(s.v, e, Step(s, e).v)
  {
    if ByKey(e) {
      KeyMoves(s, e);
    } else if ByMotor(e) {
      MotorMoves(s, e);
    } else {
      match e
      case DetectFires(high1, high2) => DetectLaw(s.v.(t := s.v.t.(detect := false)), high1, high2);
      case DelayFires => DelayExpiresLaw(s.v);
      case WaterScan(on, loss) => WaterLaw(s.v, on, loss);
      case NtcScan(volt1, volt2) => NtcLaw(s.v, volt1, volt2);
    }
  }

  lemma ReceivedLaw(s: State, from: int, command: int, data: int)
    requires Safe(s) && IsLong(from)
    ensures var s1 := NormalSolve(s, from, command, data); Shape(s1.r) && Received(s, s1, from, command, data)
  {
    var s1, d := NormalSolve(s, from, command, data), ToU32(from);
    NormalTable(s, from, command, data);
    forall k | 1 <= k <= s.r.num && s.r.id[k] == d != 0
      ensures if s.v.learning then
          && s1 == s.(r := s1.r, v := s.v.(t := s.v.t.(learn := s.v.t.learn || command == 3)))
          && s1.r == s.r.(alive := s.r.alive[k := 1], got := s.r.got[k := 1], flash := s1.r.flash)
        else Served(s, s1, d, k, command, data)
    {
      if s.v.learning {
        LearningKnown(s, from, d, k, command, data);
      } else {
        ServedLaw(s, from, d, k, command, data);
      }
    }
    if forall i | 1 <= i <= s.r.num :: s.r.id[i] != d {
      if s.v.learning {
        LearningStranger(s, from, d, command, data);
      } else {
        StrangerIgnored(s, from, 0, command, data);
      }
    }
  }

  lemma GatewayReceived(s: State, from: int, device: int, command: int, data: int)
    requires Safe(s)
    ensures var s1 := GatewaySolve(s, from, device, command, data);
      if exists i :: 1 <= i <= s.r.num && s.r.id[i] == ToU32(from)
      then Instructed(s, s1, device, command, data) else s1 == s
  {
    if exists i :: 1 <= i <= s.r.num && s.r.id[i] == ToU32(from) {
      GatewayMessageLaw(s, from, device, command, data);
    } else {
      StrangerIgnored(s, from, device, command, data);
    }
  }

  lemma StepShape(s: State, e: Event)
    requires Safe(s) && Possible(s, e)
    ensures Shape(Step(s, e).r)
  {
    StepTable(s, e);
  }

  lemma TableEvents(s: State, e: Event)
    requires Safe(s) && Possible(s, e) && !ValveOnly(e)
    ensures Shape(Step(s, e).r) && Happens(s, e, Step(s, e))
  {
    StepShape(s, e);
    match e
    case NormalMessage(from, command, data) => ReceivedLaw(s, from, command, data);
    case GatewayMessage(from, device, command, data) => GatewayReceived(s, from, device, command, data);
    case HourPassed(high1, high2) => HourLaw(s, high1, high2);
    case Reset(factory) => RestartLaw(s, factory);
    case BothKeysHeld =>
  }

  /** Every event of the controller does to valve, table and clock what the laws say. */
  lemma StepLaw(s: State, e: Event)
    requires Safe(s) && Possible(s, e)
    ensures Shape(Step(s, e).r) && Happens(s, e, Step(s, e))
  {
    if ValveOnly(e) {
      StepShape(s, e);
      MovesLaw(s, e);
    } else {
      TableEvents(s, e);
    }
  }

  /* ---- A slave alarm and the next restart ---- */

  /** The flash key of slot i after a water report of device d from slot k. */
  lemma AlarmStored(r: Reg, d: nat, k: nat, i: nat)
    requires TableOk(r) && d != 0 && 1 <= k <= r.num && r.id[k] == d && d != DoorId(r) && 1 <= i <= r.num
    ensures var r1 := ClearTime(CommandTable(r, d, 4, 1), d);
      Pending(r1, i) <==> if i == k then r.slaveAlarm[k] != 1 || Pending(r, k) else Pending(r, i)
  {
    AlarmLaw(r, d, k, 1);
    SetSlaveAlarmInv(r, d, 1);
    var r1 := CommandTable(r, d, 4, 1);
    assert r1 == SetSlaveAlarm(r, d, 1);
    ClearTimeLaw(r1, d, k);
    assert i != k && r.id[i] != 0 ==> r.id[i] != d;
  }

  lemma MessageStored(s: State, from: int, d: nat, k: nat, i: nat)
    requires Safe(s) && !s.v.learning && d == ToU32(from) && d != 0 && 1 <= k <= s.r.num && s.r.id[k] == d
    requires d != DoorId(s.r) && 1 <= i <= s.r.num
    ensures Pending(NormalSolve(s, from, 4, 1).r, i) <==>
      if i == k then s.r.slaveAlarm[k] != 1 || Pending(s.r, k) else Pending(s.r, i)
  {
    var ra := SetAlive(s.r, d, 1);
    SlotOf(s.r, d, k);
    AliveLaw(s.r, d, k, 1);
    SetAliveInv(s.r, d, 1);
    AlarmStored(ra, d, k, i);
  }

  lemma PendingWith(r: Reg, r1: Reg, k: nat, more: bool)
    requires Shape(r) && Shape(r1) && r1.num == r.num && 1 <= k <= r.num
    requires forall i | 1 <= i <= r.num :: Pending(r1, i) <==> if i == k then more || Pending(r, k) else Pending(r, i)
    ensures AnyPending(r1) <==> more || AnyPending(r)
  {
    assert Pending(r1, k) <==> more || Pending(r, k);
    if AnyPending(r) {
      var i :| 1 <= i <= r.num && Pending(r, i);
      assert Pending(r1, i);
    }
  }

  /** Water reported by an ordinary device outside the learning mode: the restart that follows is shut, locked and
      shows a slave alarm exactly if the alarm column of its slot was not set before, or an alarm was stored. */
  lemma AlarmSurvivesRestart(s: State, from: int, d: nat, k: nat, factory: bool)
    requires Safe(s) && !s.v.learning && IsLong(from) && d == ToU32(from)
    requires d != 0 && 1 <= k <= s.r.num && s.r.id[k] == d && d != DoorId(s.r)
    ensures var s1 := NormalSolve(s, from, 4, 1);
      Safe(s1) && var w := Reboot(s1, factory).v;
      AtRest(w) && w.lastFlag == w.moto == OTHER_OFF && w.status == SlaverWaterAlarmActive <==>
        s.r.slaveAlarm[k] != 1 || AnyPending(s.r)
  {
    var s1 := NormalSolve(s, from, 4, 1);
    StepSafe(s, NormalMessage(from, 4, 1));
    assert s1 == Step(s, NormalMessage(from, 4, 1));
    MessageTable(s, from, d, k, 4, 1);
    forall i | 1 <= i <= s.r.num
      ensures Pending(s1.r, i) <==> if i == k then s.r.slaveAlarm[k] != 1 || Pending(s.r, k) else Pending(s.r, i)
    {
      MessageStored(s, from, d, k, i);
    }
    PendingWith(s.r, s1.r, k, s.r.slaveAlarm[k] != 1);
    RestartLaw(s1, factory);
  }
}

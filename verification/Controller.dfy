/** The controller as it runs: the hourly loop of applications/RTCWork.c and the handlers of
    radio/Radio_Decoder.c, over one valve unit and one device table. */
module Controller {
  import opened RegistryModel
  import opened ValveModel
  import opened C = ControllerModel
  import opened RegistryInv
  import opened ValveInv
  import opened ControllerInv
  import opened OfflineWindow
  import opened StatusInv
  import opened StatusRuns
  import Registry
  import ValveUnit

  class Controller {
    const valve: ValveUnit.ValveUnit
    const reg: Registry.Registry
    var rtcCounter: nat
    var rtcHours: nat

    ghost function View(): State
      reads this, valve, reg
    {
      State(valve.View(), reg.View(), rtcCounter, rtcHours)
    }

    /** Lock and exercise invariants of the valve, table mirrored to flash: what holds even inside a handler. */
    ghost predicate Sound()
      reads this, valve, reg
    {
      valve.Valid() && reg.Valid()
    }

    /** Between events: all that the run theorems promise. */
    ghost predicate Valid()
      reads this, valve, reg
    {
      Safe(View()) && Tidy(reg.View()) && CloseIsTrue(valve.View())
    }

    /** First start with erased flash, Moto_Init included. */
    constructor (factory: bool)
      ensures Valid() && View() == State(Boot(PowerOn(0, factory), false), Blank(), 0, 0)
      ensures fresh(valve) && fresh(reg)
    {
      valve := new ValveUnit.ValveUnit(factory);
      reg := new Registry.Registry();
      rtcCounter := 0;
      rtcHours := 0;
      new;
      FactorySafe(factory);
      BootShows(0, factory, false);
      valve.Boot(false);
    }

    /** The callback that counts the hour, then one pass of RTC_Timer_Entry. */
    method Hour(senor1: bool, senor2: bool) returns (reported: seq<nat>)
      requires Sound()
      modifies this, valve, reg
      ensures Sound() && (View(), reported) == C.Hour(old(View()), senor1, senor2)
    {
      reported := [];
      rtcHours := (rtcHours + 1) % 0x1_0000_0000;
      if rtcHours % 120 == 0 {
        valve.MotoDetect(senor1, senor2);
      }
      reg.Tick();
      if rtcCounter < 24 {
        rtcCounter := rtcCounter + 1;
      } else {
        reported := DetectAll();
        rtcCounter := 0;
      }
    }

    /** Detect_All_Time */
    method DetectAll() returns (reported: seq<nat>)
      requires Sound()
      modifies valve, reg
      ensures Sound()
      ensures var (r, ids, warn) := Sweep(old(reg.View()), old(reg.num));
        && reported == ids && reg.View() == ClearAll(r)
        && valve.View() == if warn then WarningEnable(old(valve.View()), 5) else old(valve.View())
      ensures Unique(old(reg.View())) ==> ReportsExactly(old(reg.View()), reported)
    {
      if Unique(reg.View()) {
        PassIsExact(reg.View());
      }
      var warn;
      EnableKeeps(valve.View(), 5);
      reported, warn := reg.Sweep();
      if warn {
        valve.WarningEnable(5);
      }
      reg.ClearAll();
    }

    /** The loop of Offline_React. */
    method FindDead() returns (dead: bool)
      requires Sound()
      ensures dead == AnyDead(reg.View())
    {
      var k := reg.num;
      while k > 0
        invariant 0 <= k <= reg.num
        invariant forall i | k < i <= reg.num :: !(reg.alive[i] == 0 && i != reg.doorNum && i != reg.gatewayNum)
      {
        if reg.alive[k] == 0 && k != reg.doorNum && k != reg.gatewayNum { return true; }
        k := k - 1;
      }
      return false;
    }

    /** Offline_React */
    method OfflineReact()
      requires Sound()
      modifies valve
      ensures Sound() && valve.View() == C.OfflineReact(old(valve.View()), reg.View())
      ensures old(valve.status).Offline? ==> (valve.status.Offline? <==> reg.num == 0 || AnyDead(reg.View()))
      ensures Keeps(old(valve.View()), valve.View())
    {
      ReactSame(valve.View(), reg.View());
      SameKeeps(valve.View(), C.OfflineReact(valve.View(), reg.View()));
      var dead := FindDead();
      if valve.status.Offline? && reg.num > 0 && !dead {
        valve.WarningDisable();
      }
    }

    /** The device takes its alarm back; true if it was the last one. */
    method Silence(d: nat) returns (last: bool)
      requires Sound()
      modifies reg
      ensures Sound() && reg.View() == CommandTable(old(reg.View()), d, 6, 0)
      ensures last <==> AnySlaveAlarm(old(reg.View())) && !AnySlaveAlarm(reg.View())
    {
      last := false;
      var any := reg.AnyAlarm();
      if any {
        reg.SetSlaveAlarm(d, 0);
        any := reg.AnyAlarm();
        last := !any;
      }
    }

    /** Command 6 of DataSolve. */
    method CloseValve(d: nat)
      requires Sound()
      modifies valve, reg
      ensures Sound() && reg.View() == CommandTable(old(reg.View()), d, 6, 0)
      ensures valve.View() == CommandValve(old(valve.View()), old(reg.View()), d, 6, 0)
      ensures Keeps(old(valve.View()), valve.View())
    {
      var last := Silence(d);
      valve.CloseCommand(last);
    }

    /** Command 4 of DataSolve. */
    method Alarm(d: nat, data: int)
      requires Sound()
      modifies valve, reg
      ensures Sound() && reg.View() == CommandTable(old(reg.View()), d, 4, data)
      ensures valve.View() == CommandValve(old(valve.View()), old(reg.View()), d, 4, data)
    {
      if data == 1 {
        if d != DoorOf() {
          reg.SetSlaveAlarm(d, 1);
          valve.WaterReport();
        }
      }
    }

    /** GetDoorID */
    function DoorOf(): (d: nat)
      requires Sound()
      reads this, valve, reg
      ensures d == DoorId(reg.View())
    {
      if reg.doorNum == 0 then 0 else reg.id[reg.doorNum]
    }

    /** The switch of DataSolve. */
    method Command(d: nat, command: int, data: int)
      requires Sound()
      modifies valve, reg
      ensures Sound() && reg.View() == CommandTable(old(reg.View()), d, command, data)
      ensures valve.View() == CommandValve(old(valve.View()), old(reg.View()), d, command, data)
    {
      match command
      case 2 => valve.Battery(d == DoorOf(), data);
      case 3 => valve.LearnCommand(data);
      case 4 => Alarm(d, data);
      case 5 => valve.OpenCommand();
      case 6 => CloseValve(d);
      case 8 => valve.DelayCommand(data);
      case _ =>
    }

    method DataSolve(d: nat, command: int, data: int)
      requires Sound()
      modifies valve, reg
      ensures Sound() && View() == C.DataSolve(old(View()), d, command, data)
    {
      Command(d, command, data);
      reg.ClearTime(d);
      OfflineReact();
    }

    /** Device_Learn */
    method DeviceLearn(from: int, data: int)
      requires Sound() && IsLong(from)
      modifies reg
      ensures Sound() && reg.View() == C.DeviceLearn(old(reg.View()), from, data)
    {
      var d := ToU32(from);
      var known := reg.KeyValid(d);
      if data == 1 {
        if !known {
          reg.Learn(from);
        }
      } else if data == 2 {
        if known {
          reg.SetAlive(d, 1);
        }
      }
    }

    /** NormalSolve */
    method NormalSolve(from: int, command: int, data: int)
      requires Sound() && IsLong(from)
      modifies valve, reg
      ensures Sound() && View() == C.NormalSolve(old(View()), from, command, data)
    {
      var d := ToU32(from);
      if valve.learning {
        reg.SetAlive(d, 1);
        if command == 3 {
          DeviceLearn(from, data);
          valve.t := valve.t.(learn := true);
        }
      } else {
        var known := reg.KeyValid(d);
        if known {
          reg.SetAlive(d, 1);
          DataSolve(d, command, data);
        }
      }
    }

    /** GatewayDataSolve */
    method GatewaySolve(from: int, device: int, command: int, data: int)
      requires Sound()
      modifies valve, reg
      ensures Sound() && View() == C.GatewaySolve(old(View()), from, device, command, data)
    {
      var known := reg.KeyValid(ToU32(from));
      if known {
        if command == 2 {
          valve.GatewayCommand(data);
        } else if command == 6 {
          reg.Delete(ToU32(device));
        }
      }
    }

    /** Start after a reset. */
    method Reboot(factory: bool)
      requires Sound()
      modifies this, valve, reg
      ensures Sound() && View() == C.Reboot(old(View()), factory)
    {
      rtcCounter := 0;
      rtcHours := 0;
      reg.Load();
      valve.ClearRam(factory);
      var any := reg.AnyAlarm();
      valve.Boot(any);
    }

    /** DeleteAllDevice */
    method Wipe()
      requires Sound()
      modifies valve, reg
      ensures Sound() && View() == C.Wipe(old(View()))
    {
      reg.Wipe();
      valve.lastFlag := 0;
      valve.moto := 0;
    }

    static predicate OnlyValve(e: Event) {
      !e.BothKeysHeld? && !e.HourPassed? && !e.NormalMessage? && !e.GatewayMessage? && !e.Reset?
    }

    /** Keys, timers and scans: events that touch only the valve. */
    method DispatchValve(e: Event)
      requires Sound() && OnlyValve(e) && Possible(View(), e)
      modifies valve
      ensures Sound() && View() == Step(old(View()), e)
    {
      match e
      case KeyOnDown => valve.KeyOn();
      case KeyOffDown(a, b) => valve.KeyOff(a, b);
      case KeyOffHeld => valve.KeyOffLong();
      case LearnTimeout => valve.LearnExpires();
      case Act1Fires => valve.Act1();
      case Act2Fires => valve.Act2();
      case Det1Fires => valve.Turn1Timer();
      case Det2Fires => valve.Turn2Timer();
      case DetectFires(a, b) => valve.DetectExpires(a, b);
      case DelayFires => valve.DelayExpires();
      case Edge1 => valve.CountEdge1();
      case Edge2 => valve.CountEdge2();
      case WaterScan(on, loss) => valve.WaterTick(on, loss);
      case NtcScan(volt1, volt2) => valve.NtcTick(volt1, volt2);
      case _ =>
    }

    /** The handler of one event. */
    method Handle(e: Event)
      requires Sound() && Possible(View(), e)
      modifies this, valve, reg
      ensures Sound() && View() == Step(old(View()), e)
    {
      match e
      case BothKeysHeld => Wipe();
      case HourPassed(a, b) => var reported := Hour(a, b);
      case NormalMessage(from, command, data) => NormalSolve(from, command, data);
      case GatewayMessage(from, device, command, data) => GatewaySolve(from, device, command, data);
      case Reset(factory) => Reboot(factory);
      case _ => DispatchValve(e);
    }

    /** One event of the running controller. All invariants hold again; a locked valve stays locked exactly
        unless the event is an accepted OtherOpen or a wipe; the role slots stay right exactly unless the
        gateway was deleted. */
    method Dispatch(e: Event)
      requires Valid() && Possible(View(), e)
      modifies this, valve, reg
      ensures Valid() && View() == Step(old(View()), e)
      ensures ValveStep(old(View()), e, valve.View())
      ensures TableStep(old(reg.View()), reg.View(), GatewayDeleted(old(View()), e))
      ensures !Misleading(old(valve.View())) ==>
        (Misleading(valve.View()) <==> e.KeyOnDown? && BlindPress(old(valve.View())))
    {
      ghost var s := View();
      StepSafe(s, e);
      StepTidy(s, e);
      StepValve(s, e);
      StepTable(s, e);
      StepShows(s, e);
      Handle(e);
    }

    /** A whole run. It is a run of the model, so everything proved about runs holds of this object: the
        invariants, and that nothing harmless opens a locked valve. */
    method Serve(es: seq<Event>)
      requires Valid() && Runnable(View(), es)
      modifies this, valve, reg
      ensures Valid() && Reaches(old(View()), es, View())
      ensures LockInv(valve.View()) && ExerciseInv(valve.View()) && SameTable(Load(reg.flash), reg.View())
      ensures Locked(old(valve.View())) && (forall i | 0 <= i < |es| :: Harmless(es[i])) ==>
        Locked(valve.View()) && !valve.open
      ensures Roles(old(reg.View())) && GatewayStays(old(View()), es) ==> Roles(reg.View())
      decreases |es|
    {
      ghost var s := View();
      if es != [] {
        Dispatch(es[0]);
        Serve(es[1..]);
      }
      RunMeans(s, es, View());
    }
  }

  /** Every event of the run can happen when its turn comes. */
  ghost predicate Runnable(s: State, es: seq<Event>)
    decreases |es|
  {
    es == [] || (Shape(s.r) && Possible(s, es[0]) && Runnable(Step(s, es[0]), es[1..]))
  }

  /** The run theorems together. */
  lemma RunMeans(s: State, es: seq<Event>, s': State)
    requires Safe(s) && Reaches(s, es, s')
    ensures LockInv(s'.v) && ExerciseInv(s'.v) && SameTable(Load(s'.r.flash), s'.r)
    ensures Locked(s.v) && (forall i | 0 <= i < |es| :: Harmless(es[i])) ==> Locked(s'.v) && !s'.v.open
    ensures Roles(s.r) && GatewayStays(s, es) ==> Roles(s'.r)
  {
    RunSafe(s, es, s');
    if Locked(s.v) && forall i | 0 <= i < |es| :: Harmless(es[i]) {
      LockHolds(s, es, s');
    }
    if Roles(s.r) && GatewayStays(s, es) {
      RolesHold(s, es, s');
    }
  }
}

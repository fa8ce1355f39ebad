/** The valve controller as it runs: the globals of applications/Moto.c, Status.c, key.c, Work.c and
    ADCwork.c, updated in place by the handlers and timer callbacks. Timers, motor pins and flags, and the
    probe's variables are kept in three records. */
module ValveUnit {
  import opened V = ValveModel
  import opened ValveInv
  import L = ValveLaws

  class ValveUnit {
    var status: Status
    var open: bool
    var lastFlag: nat
    var moto: nat
    var prio: nat
    var lastClose: bool
    var learning: bool
    var ntcState: bool
    var factory: bool
    var t: Timers
    var m: Motor
    var p: Probe

    ghost function View(): Valve
      reads this
    {
      Valve(status, open, lastFlag, moto, prio, lastClose, learning, ntcState, factory, t, m, p)
    }

    /** The lock and exercise invariants: flash agrees with LastFlag, a locked valve is shut, a shut valve
        is at rest, and whatever is lowered or masked has a timer pending that ends it. */
    ghost predicate Valid()
      reads this
    {
      Ok(View())
    }

    /** Reset of RAM; `moto` survives in flash. */
    method ClearRam(isFactory: bool)
      modifies this
      ensures Valid() && View() == PowerOn(old(moto), isFactory)
    {
      status, open, lastFlag, prio, lastClose, learning, ntcState := Close, false, moto, 0, false, false, false;
      factory := isFactory;
      t := Timers(false, false, false, false, false, false, false);
      m := Motor(false, false, false, false, 0, 0, false, false, false, false, false);
      p := Probe(0, 0, 0);
    }

    /** A unit fresh from the factory. */
    constructor (isFactory: bool)
      ensures Valid() && View() == PowerOn(0, isFactory)
    {
      moto := 0;
      new;
      ClearRam(isFactory);
    }

    /* ---- Moto.c ---- */

    /** The part that Moto_InitOpen and Moto_Open share. */
    method DriveOpen(act: nat)
      modifies this
      ensures View() == V.Opened(old(View()), act)
    {
      status := Open;
      open := true;
      lastFlag := act;
      moto := act;
      m := m.(pin1 := true, pin2 := true);
    }

    method MotoInitOpen(act: nat)
      modifies this
      ensures View() == V.MotoInitOpen(old(View()), act)
    {
      if (lastFlag == OTHER_OFF && act == OTHER_OPEN) || lastFlag != OTHER_OFF {
        DriveOpen(act);
      }
    }

    method MotoOpen(act: nat)
      modifies this
      ensures View() == V.MotoOpen(old(View()), act)
    {
      if (lastFlag == OTHER_OFF && act == OTHER_OPEN) || lastFlag != OTHER_OFF {
        DriveOpen(act);
        if act == NORMAL_OPEN {
          t := t.(detect := true);
        }
        t := t.(delay := false);
      }
    }

    method MotoClose(act: nat)
      modifies this
      ensures View() == V.MotoClose(old(View()), act)
    {
      if lastFlag != OTHER_OFF {
        status := Close;
        open := false;
        lastFlag := act;
        moto := act;
        m := m.(irq1 := false, pin1 := false, irq2 := false, pin2 := false, keyPause := false, waterPause := false);
        t := t.(delay := false, act1 := false, act2 := false, det1 := false, det2 := false);
      } else if act == OTHER_OFF {
        status := Close;
        open := false;
        t := t.(delay := false);
      }
    }

    /** The body of Moto_Detect. */
    method Exercise(senor1: bool, senor2: bool)
      modifies this
      ensures View() == V.MotoDetect(old(View()), senor1, senor2)
    {
      if open {
        m := m.(turn1 := 0, turn2 := 0, fail1 := false, fail2 := false);
        if senor1 {
          m := m.(keyPause := true, waterPause := true, irq1 := true, pin1 := false);
          t := t.(act1 := true);
        }
        if senor2 {
          m := m.(keyPause := true, waterPause := true, irq2 := true, pin2 := false);
          t := t.(act2 := true);
        }
      }
    }

    method MotoDetect(senor1: bool, senor2: bool)
      requires Valid()
      modifies this
      ensures Valid() && View() == V.MotoDetect(old(View()), senor1, senor2)
      ensures Keeps(old(View()), View())
      ensures open == old(open)
    {
      ghost var v := View();
      Exercise(senor1, senor2);
      DetectKeeps(v, senor1, senor2);
    }

    /** Moto1_Timer_Act_Callback */
    method Act1()
      requires Valid() && t.act1
      modifies this
      ensures Valid() && View() == V.Act1(old(View()))
      ensures Keeps(old(View()), View())
      ensures t.det1
    {
      ActKeeps(View());
      m := m.(pin1 := true);
      t := t.(act1 := false, det1 := true);
    }

    /** Moto2_Timer_Act_Callback */
    method Act2()
      requires Valid() && t.act2
      modifies this
      ensures Valid() && View() == V.Act2(old(View()))
      ensures Keeps(old(View()), View())
      ensures t.det2
    {
      ActKeeps(View());
      m := m.(pin2 := true);
      t := t.(act2 := false, det2 := true);
    }

    /** The body of Turn1_Timer_Callback. */
    method EndExercise1()
      modifies this
      ensures View() == V.Turn1Timer(old(View()))
    {
      m := m.(keyPause := false, waterPause := false, irq1 := false, pin1 := true);
      t := t.(det1 := false);
      assert View() == V.Unmask1(old(View()));
      if m.turn1 < 2 {
        if !m.fail2 {
          WarningEnable(6);
          m := m.(alarm := true);
        }
        m := m.(fail1 := true);
      } else {
        if !m.fail2 {
          m := m.(alarm := false);
        }
        m := m.(fail1 := false);
      }
    }

    /** Turn1_Timer_Callback */
    method Turn1Timer()
      requires Valid() && t.det1
      modifies this
      ensures Valid() && View() == V.Turn1Timer(old(View()))
      ensures Keeps(old(View()), View())
      ensures !m.keyPause && !m.waterPause
    {
      ghost var v := View();
      EndExercise1();
      Turn1Keeps(v);
      MasksOff1(v);
    }

    /** The body of Turn2_Timer_Callback. */
    method EndExercise2()
      modifies this
      ensures View() == V.Turn2Timer(old(View()))
    {
      m := m.(keyPause := false, waterPause := false, irq2 := false, pin2 := true);
      t := t.(det2 := false);
      assert View() == V.Unmask2(old(View()));
      if m.turn2 < 2 {
        WarningEnable(9);
        m := m.(fail2 := true, alarm := true);
      } else {
        m := m.(fail2 := false, alarm := false);
      }
    }

    /** Turn2_Timer_Callback */
    method Turn2Timer()
      requires Valid() && t.det2
      modifies this
      ensures Valid() && View() == V.Turn2Timer(old(View()))
      ensures Keeps(old(View()), View())
      ensures !m.keyPause && !m.waterPause
    {
      ghost var v := View();
      EndExercise2();
      Turn2Keeps(v);
      MasksOff2(v);
    }

    /** Turn1_Edge_Callback */
    method CountEdge1()
      requires Valid()
      modifies this
      ensures Valid() && View() == V.CountEdge1(old(View()))
      ensures Keeps(old(View()), View())
    {
      EdgeSame(View());
      SameKeeps(View(), V.CountEdge1(View()));
      m := m.(turn1 := (m.turn1 + 1) % 256);
    }

    /** Turn2_Edge_Callback */
    method CountEdge2()
      requires Valid()
      modifies this
      ensures Valid() && View() == V.CountEdge2(old(View()))
      ensures Keeps(old(View()), View())
    {
      EdgeSame(View());
      SameKeeps(View(), V.CountEdge2(View()));
      m := m.(turn2 := (m.turn2 + 1) % 256);
    }

    /** Moto_Detect_Timer_Callback */
    method DetectExpires(senor1: bool, senor2: bool)
      requires Valid()
      modifies this
      ensures Valid() && View() == V.DetectExpires(old(View()), senor1, senor2)
      ensures Keeps(old(View()), View())
    {
      DetectExpiresKeeps(View(), senor1, senor2);
      t := t.(detect := false);
      Exercise(senor1, senor2);
    }

    /** The opening logic of Moto_Init. */
    method Boot(slaveAlarm: bool)
      requires Valid()
      modifies this
      ensures Valid() && View() == V.Boot(old(View()), slaveAlarm)
      ensures Keeps(old(View()), View())
      ensures old(View()) == PowerOn(old(moto), old(factory)) ==> L.Booted(old(moto), View(), slaveAlarm)
    {
      BootOk(View(), slaveAlarm);
      L.BootLaw(moto, factory, slaveAlarm);
      if slaveAlarm {
        WarningEnable(2);
        return;
      }
      if lastFlag != OTHER_OFF {
        MotoInitOpen(NORMAL_OPEN);
      }
    }

    /* ---- Status.c ---- */

    /** The callback of warning `id`. */
    method Callback(id: nat)
      modifies this
      ensures View() == V.Apply(old(View()), V.Callback(id, old(status)))
    {
      match id
      case 1 => MotoClose(OTHER_OFF); status := SlaverUltraLowPower;
      case 2 => MotoClose(OTHER_OFF); status := SlaverWaterAlarmActive;
      case 3 => status := MasterLostPeak;
      case 4 => MotoClose(NORMAL_OFF); status := MasterWaterAlarmActive;
      case 5 => if !status.Offline? { MotoClose(NORMAL_OFF); status := Offline; }
      case 6 => status := MotoFail;
      case 8 => MotoClose(NORMAL_OFF); status := NTCWarning;
      case 9 => status := MotoFail;
      case _ =>
    }

    /** Warning_Enable */
    method WarningEnable(id: nat)
      modifies this
      ensures View() == V.WarningEnable(old(View()), id)
    {
      if Priority(id) >= prio {
        prio := Priority(id);
        Callback(id);
      }
    }

    method BackToNormal()
      modifies this
      ensures View() == V.BackToNormal(old(View()))
    {
      p := p.(past := 0, now := 0, stat := 0);
      if open {
        status := Open;
      } else {
        status := Close;
      }
    }

    method WarningDisable()
      modifies this
      ensures View() == V.WarningDisable(old(View()))
    {
      prio := 0;
      BackToNormal();
    }

    /** Delay_Timer_Callback */
    method DelayExpires()
      requires Valid()
      modifies this
      ensures Valid() && View() == V.DelayExpires(old(View()))
      ensures Keeps(old(View()), View())
      ensures AtRest(View()) && lastFlag == OTHER_OFF
    {
      DelayExpiresKeeps(View());
      t := t.(delay := false);
      MotoClose(OTHER_OFF);
    }

    /* ---- key.c ---- */

    /** Key ON */
    method KeyOn()
      requires Valid()
      modifies this
      ensures Valid() && View() == V.KeyOn(old(View()))
      ensures Keeps(old(View()), View())
    {
      KeyOnKeeps(View());
      match status
      case Close => if !lastClose { MotoOpen(NORMAL_OPEN); }
      case MasterLostPeak => status := Open; MotoOpen(NORMAL_OPEN);
      case _ =>
    }

    /** Key OFF */
    method KeyOff(senor1: bool, senor2: bool)
      requires Valid()
      modifies this
      ensures Valid() && View() == V.KeyOff(old(View()), senor1, senor2)
      ensures Keeps(old(View()), View())
      ensures !old(factory) && old(status).Open? ==> !open
    {
      KeyOffKeeps(View(), senor1, senor2);
      if factory {
        WarningDisable();
        Exercise(senor1, senor2);
      } else {
        match status
        case Open => lastClose := false; MotoClose(NORMAL_OFF);
        case MasterLostPeak => MotoClose(NORMAL_OFF); status := Close;
        case MasterWaterAlarmDeActive => status := Close; WarningDisable();
        case _ =>
      }
    }

    /** Key OFF held */
    method KeyOffLong()
      requires Valid()
      modifies this
      ensures Valid() && View() == V.KeyOffLong(old(View()))
      ensures Keeps(old(View()), View())
      ensures open == old(open)
    {
      KeyOffLongSame(View());
      SameKeeps(View(), V.KeyOffLong(View()));
      if status.Close? || status.Open? {
        StartLearn();
      } else if status.Learn? {
        LearnExpires();
      }
    }

    method StartLearn()
      modifies this
      ensures View() == V.StartLearn(old(View()))
    {
      status := Learn;
      learning := true;
      t := t.(learn := true);
    }

    /** Learn_Timer_Callback and Stop_Learn */
    method LearnExpires()
      requires Valid()
      modifies this
      ensures Valid() && View() == V.LearnExpires(old(View()))
      ensures Keeps(old(View()), View())
    {
      KeyOffLongSame(View());
      SameKeeps(View(), V.LearnExpires(View()));
      t := t.(learn := false);
      learning := false;
      WarningDisable();
    }

    /* ---- Work.c ---- */

    method WarningWithPeak(kind: nat)
      modifies this
      ensures View() == V.WarningWithPeak(old(View()), kind)
    {
      if !status.Learn? {
        match kind
        case 0 => if status.Open? || status.Close? || status.MasterLostPeak? { BackToNormal(); }
        case 1 => WarningEnable(3);
        case 2 => WarningEnable(4);
        case 3 => status := MasterWaterAlarmDeActive;
        case 4 => WarningEnable(4);
        case _ =>
      }
    }

    /** The four branches of waterscan_timer_callback that latch the new reading. */
    method PeakEdge(kind: nat, stat: nat)
      modifies this
      ensures View() == V.PeakEdge(old(View()), kind, stat)
    {
      if p.stat != stat {
        WarningWithPeak(kind);
        p := p.(past := p.now, stat := stat);
      }
    }

    /** The edge detection of waterscan_timer_callback. */
    method WaterEdge()
      modifies this
      ensures View() == V.WaterEdge(old(View()))
    {
      if p.now != p.past {
        if p.past == 2 && p.now == 0 {
          if p.stat != 1 {
            p := p.(stat := 1);
            WarningWithPeak(3);
          }
        } else if p.past == 2 && p.now == 1 {
          if p.stat != 2 {
            p := p.(stat := 2);
          }
        } else if p.past == 0 && p.now == 1 {
          PeakEdge(1, 4);
        } else if p.past == 0 && p.now == 2 {
          PeakEdge(2, 8);
        } else if p.past == 1 && p.now == 0 {
          PeakEdge(0, 16);
        } else if p.past == 1 && p.now == 2 {
          PeakEdge(4, 32);
        }
      }
    }

    /** waterscan_timer_callback */
    method WaterTick(on: bool, loss: bool)
      requires Valid()
      modifies this
      ensures Valid() && View() == V.WaterTick(old(View()), on, loss)
      ensures Keeps(old(View()), View())
      ensures L.Scanned(old(View()), View(), L.Level(old(View()), on, loss))
    {
      WaterKeeps(View(), on, loss);
      L.WaterLaw(View(), on, loss);
      var onLevel := m.waterPause || on;
      var lossLevel := !m.waterPause && loss;
      if lossLevel {
        p := p.(now := 1);
      } else {
        if !onLevel {
          p := p.(now := 2);
        } else {
          p := p.(now := 0);
        }
      }
      WaterEdge();
    }

    /* ---- ADCwork.c ---- */

    /** The body of ntc_scan_timer_callback. */
    method ScanNtc(volt1: real, volt2: real)
      modifies this
      ensures View() == V.NtcTick(old(View()), volt1, volt2)
    {
      if volt1 < 1.153 && !status.NTCWarning? {
        ntcState := open;
        WarningEnable(8);
      }
      assert View() == V.NtcAlarm(old(View()), volt1);
      if volt2 >= 1.168 && status.NTCWarning? {
        WarningDisable();
        if ntcState {
          MotoOpen(NORMAL_OPEN);
        } else {
          MotoClose(NORMAL_OFF);
        }
      }
    }

    /** ntc_scan_timer_callback */
    method NtcTick(volt1: real, volt2: real)
      requires Valid()
      modifies this
      ensures Valid() && View() == V.NtcTick(old(View()), volt1, volt2)
      ensures Keeps(old(View()), View())
    {
      ghost var v := View();
      ScanNtc(volt1, volt2);
      NtcKeeps(v, volt1, volt2);
    }

    /* ---- Commands by radio ---- */

    method Battery(isDoor: bool, data: int)
      requires Valid()
      modifies this
      ensures Valid() && View() == V.Battery(old(View()), isDoor, data)
      ensures Keeps(old(View()), View())
    {
      BatteryKeeps(View(), isDoor, data);
      if data == 1 {
        if !isDoor { WarningEnable(7); }
      } else if data == 2 {
        if !isDoor { WarningEnable(1); }
      }
    }

    method WaterReport()
      requires Valid()
      modifies this
      ensures Valid() && View() == V.WaterReport(old(View()))
      ensures Keeps(old(View()), View())
    {
      WaterReportKeeps(View());
      if !status.SlaverWaterAlarmActive? {
        WarningEnable(2);
      }
    }

    method LearnCommand(data: int)
      requires Valid()
      modifies this
      ensures Valid() && View() == V.LearnCommand(old(View()), data)
      ensures Keeps(old(View()), View())
    {
      LearnCommandSame(View(), data);
      SameKeeps(View(), V.LearnCommand(View(), data));
      if data == 3 {
        if status.Open? || status.Close? {
          StartLearn();
        }
      }
    }

    method OpenCommand()
      requires Valid()
      modifies this
      ensures Valid() && View() == V.OpenCommand(old(View()))
      ensures if Normal(old(View())) then open && lastFlag == OTHER_OPEN else View() == old(View())
    {
      OpenCommandOk(View());
      if status.Open? || status.Close? {
        MotoOpen(OTHER_OPEN);
        lastClose := false;
      }
    }

    /** The closing part of command 6. */
    method CloseByRadio(silenced: bool)
      modifies this
      ensures View() == V.CloseCommand(old(View()), silenced)
    {
      if silenced {
        WarningDisable();
      }
      if status.Open? || status.Close? {
        WarningDisable();
        lastClose := true;
        MotoClose(OTHER_OFF);
      }
    }

    method CloseCommand(silenced: bool)
      requires Valid()
      modifies this
      ensures Valid() && View() == V.CloseCommand(old(View()), silenced)
      ensures Keeps(old(View()), View())
    {
      ghost var v := View();
      CloseByRadio(silenced);
      CloseCommandKeeps(v, silenced);
    }

    /** The body of command 8. */
    method SetDelay(data: int)
      modifies this
      ensures View() == V.DelayCommand(old(View()), data)
    {
      if data != 0 {
        t := t.(delay := false);
      } else if status.Open? {
        t := t.(delay := true);
      }
    }

    method DelayCommand(data: int)
      requires Valid()
      modifies this
      ensures Valid() && View() == V.DelayCommand(old(View()), data)
      ensures Keeps(old(View()), View())
    {
      ghost var v := View();
      SetDelay(data);
      DelayCommandSame(v, data);
      SameKeeps(v, V.DelayCommand(v, data));
    }

    method GatewayCommand(data: int)
      requires Valid()
      modifies this
      ensures Valid() && View() == V.GatewayCommand(old(View()), data)
      ensures if Normal(old(View())) && data != 0 then open && lastFlag == OTHER_OPEN else Keeps(old(View()), View())
    {
      GatewayCommandOk(View(), data);
      if status.Close? || status.Open? {
        if data != 0 {
          MotoOpen(OTHER_OPEN);
        } else {
          MotoClose(OTHER_OFF);
        }
      }
    }
  }
}

/** storage/flashwork.c as it runs: Global_Device in RAM, updated in place together with flash. */
module Registry {
  import opened RegistryModel
  import opened RegistryInv

  class Registry {
    var num: nat
    var doorNum: nat
    var gatewayNum: nat
    var id: seq<nat>
    var alive: seq<nat>
    var slaveAlarm: seq<nat>
    var idTime: seq<nat>
    var got: seq<nat>
    var flash: Flash

    ghost function View(): Reg
      reads this
    {
      Reg(num, doorNum, gatewayNum, id, alive, slaveAlarm, idTime, got, flash)
    }

    ghost predicate Shaped()
      reads this
    {
      Shape(View())
    }

    /** Flash holds all that a reload needs. */
    ghost predicate Valid()
      reads this
    {
      Mirror(View())
    }

    /** Erased flash. */
    constructor ()
      ensures Valid() && View() == Blank() && Unique(View()) && Roles(View())
    {
      num, doorNum, gatewayNum := 0, 0, 0;
      id, alive, slaveAlarm, idTime, got := Zeros(), Zeros(), Zeros(), Zeros(), Zeros();
      flash := map[];
    }

    /** The downward search that nearly every function of the file contains. */
    method Find(d: nat) returns (k: nat)
      requires Shaped()
      ensures k == RegistryModel.Find(id, num, d)
    {
      k := num;
      while k > 0 && id[k] != d
        invariant 0 <= k <= num && RegistryModel.Find(id, num, d) == RegistryModel.Find(id, k, d)
      {
        k := k - 1;
      }
    }

    /** Flash_Get_Key_Valid */
    method KeyValid(d: nat) returns (ok: bool)
      requires Shaped()
      ensures ok == Registered(View(), d)
      ensures ok <==> exists i :: 1 <= i <= num && id[i] == d
    {
      RegisteredIff(View(), d);
      var k := Find(d);
      ok := k > 0;
    }

    /** Get_LearnNums_Valid */
    method NewSlot() returns (k: nat)
      requires Valid()
      modifies this`num, this`flash
      ensures Valid() && (View(), k) == RegistryModel.NewSlot(old(View()))
      ensures id == old(id) && (k != 0 ==> 1 <= k <= num && id[k] == 0)
      ensures k == 0 ==> forall i | 1 <= i < MAX_SUPPORT :: id[i] != 0
    {
      NewSlotInv(View());
      k := 1;
      while k < MAX_SUPPORT && id[k] != 0
        invariant 1 <= k <= MAX_SUPPORT && FirstEmpty(id, 1) == FirstEmpty(id, k)
      {
        k := k + 1;
      }
      if k == MAX_SUPPORT {
        k := 0;
      } else if k > num {
        num := k;
        flash := flash[LearnNums := k];
      }
    }

    /** Add_Device */
    method AddDevice(d: nat) returns (ok: bool)
      requires Valid()
      modifies this`num, this`id, this`flash
      ensures Valid() && (View(), ok) == RegistryModel.AddDevice(old(View()), d)
      ensures Added(old(View()), View(), d, !IsDoor(d) && !IsGateway(d))
      ensures ok ==> Registered(View(), d)
    {
      AddDeviceInv(View(), d);
      AddDeviceHolds(View(), d);
      var k := NewSlot();
      ok := k != 0;
      if ok {
        id := id[k := d];
        flash := flash[Num(k) := d];
      }
    }

    /** Add_DoorDevice */
    method AddDoor(d: nat) returns (ok: bool)
      requires Valid()
      modifies this`num, this`id, this`flash, this`doorNum
      ensures Valid() && (View(), ok) == RegistryModel.AddDoor(old(View()), d)
      ensures Added(old(View()), View(), d, IsDoor(d))
      ensures ok ==> DoorId(View()) == d
    {
      AddDoorInv(View(), d);
      AddRoleHolds(View(), d);
      var k;
      if doorNum != 0 && id[doorNum] != 0 {
        k := Get(flash, DOOR);
        ok := true;
      } else {
        k := NewSlot();
        ok := k != 0;
      }
      if ok {
        id := id[k := d];
        flash := flash[Num(k) := d];
        doorNum := k;
        flash := flash[DOOR := k];
      }
    }

    /** Add_GatewayDevice */
    method AddGateway(d: nat) returns (ok: bool)
      requires Valid()
      modifies this`num, this`id, this`flash, this`gatewayNum
      ensures Valid() && (View(), ok) == RegistryModel.AddGateway(old(View()), d)
      ensures Added(old(View()), View(), d, IsGateway(d))
      ensures ok ==> GatewayId(View()) == d
    {
      AddGatewayInv(View(), d);
      AddRoleHolds(View(), d);
      var k;
      if gatewayNum != 0 && id[gatewayNum] != 0 {
        k := Get(flash, GATEWAY);
        ok := true;
      } else {
        k := NewSlot();
        ok := k != 0;
      }
      if ok {
        id := id[k := d];
        flash := flash[Num(k) := d];
        gatewayNum := k;
        flash := flash[GATEWAY := k];
      }
    }

    /** The dispatch on the id range in Device_Learn. */
    method Learn(from: int)
      requires Valid() && -0x8000_0000 <= from < 0x8000_0000
      modifies this`num, this`id, this`flash, this`doorNum, this`gatewayNum
      ensures Valid() && View() == RegistryModel.Learn(old(View()), from).0
      ensures Added(old(View()), View(), ToU32(from), true)
    {
      LearnInv(View(), from);
      var d := ToU32(from);
      var ok;
      if from < 30000000 {
        ok := AddDevice(d);
      } else if from < 40000000 {
        ok := AddDoor(d);
      } else if from < 50000000 {
        ok := AddGateway(d);
      }
    }

    /** Delete_Device */
    method Delete(d: nat)
      requires Valid()
      modifies this`id, this`flash, this`doorNum
      ensures Valid() && View() == RegistryModel.Delete(old(View()), d)
      ensures Unique(old(View())) ==> Deleted(old(View()), View(), d)
    {
      DeleteKeeps(View(), d);
      var k := Find(d);
      if k > 0 {
        id := id[k := 0];
        flash := flash[Num(k) := 0];
        if IsDoor(d) {
          doorNum := 0;
          flash := flash[DOOR := 0];
        }
      }
    }

    /** Device_AliveChange */
    method SetAlive(d: nat, v: nat)
      requires Valid()
      modifies this`alive, this`got, this`flash
      ensures Valid() && View() == RegistryModel.SetAlive(old(View()), d, v)
      ensures SameSlots(old(View()), View())
    {
      SetAliveInv(View(), d, v);
      var k := Find(d);
      if k > 0 && (alive[k] != v || got[k] != v) {
        alive := alive[k := v];
        got := got[k := v];
        flash := flash[Alive(d) := v];
      }
    }

    /** Flash_Set_SlaveAlarmFlag */
    method SetSlaveAlarm(d: nat, v: nat)
      requires Valid()
      modifies this`slaveAlarm, this`flash
      ensures Valid() && View() == RegistryModel.SetSlaveAlarm(old(View()), d, v)
      ensures SameSlots(old(View()), View())
    {
      SetSlaveAlarmInv(View(), d, v);
      var k := Find(d);
      if k > 0 && slaveAlarm[k] != v {
        slaveAlarm := slaveAlarm[k := v];
        flash := flash[SlaveAlarm(d) := v];
      }
    }

    /** Flash_Get_SlaveAlarmFlag */
    method AnyAlarm() returns (any: bool)
      requires Shaped()
      ensures any == AnySlaveAlarm(View())
    {
      var k := num;
      while k > 0
        invariant 0 <= k <= num && forall i | k < i <= num :: slaveAlarm[i] == 0
      {
        if slaveAlarm[k] != 0 { return true; }
        k := k - 1;
      }
      return false;
    }

    /** Clear_Device_Time */
    method ClearTime(d: nat)
      requires Valid()
      modifies this`idTime
      ensures Valid() && View() == RegistryModel.ClearTime(old(View()), d)
      ensures SameSlots(old(View()), View())
    {
      var k := Find(d);
      if k > 0 {
        idTime := idTime[k := 0];
      }
    }

    /** Update_All_Time */
    method Tick()
      requires Valid()
      modifies this`idTime
      ensures Valid() && View() == RegistryModel.Tick(old(View()))
      ensures SameSlots(old(View()), View())
    {
      ghost var want := RegistryModel.Tick(View()).idTime;
      for i := 1 to num + 1
        invariant Valid() && forall j | 0 <= j < COLUMN :: idTime[j] == if j < i then want[j] else old(idTime)[j]
      {
        if idTime[i] < 25 {
          idTime := idTime[i := idTime[i] + 1];
        }
      }
      assert idTime == want;
    }

    /** Clear_All_Time */
    method ClearAll()
      requires Valid()
      modifies this`idTime, this`got
      ensures Valid() && View() == RegistryModel.ClearAll(old(View()))
      ensures SameSlots(old(View()), View())
    {
      ghost var want := RegistryModel.ClearAll(View());
      for i := 1 to num + 1
        invariant Valid()
        invariant forall j | 0 <= j < COLUMN :: idTime[j] == if j < i then want.idTime[j] else old(idTime)[j]
        invariant forall j | 0 <= j < COLUMN :: got[j] == if j < i then want.got[j] else old(got)[j]
      {
        if idTime[i] < 25 || got[i] == 1 {
          got := got[i := 0];
          idTime := idTime[i := 0];
        }
      }
      assert idTime == want.idTime && got == want.got;
    }

    /** What Detect_All_Time has left to do from slot k downwards completes `want`. */
    static ghost predicate Remaining(r: Reg, k: nat, want: (Reg, seq<nat>, bool), reported: seq<nat>, warn: bool)
      requires Shape(r) && k < MAX_SUPPORT
    {
      var rest := RegistryModel.Sweep(r, k);
      want.0 == rest.0 && want.1 == reported + rest.1 && want.2 == (warn || rest.2)
    }

    /** One slot of Detect_All_Time: the ids it adds to the report, and its warning. */
    method SweepSlot(k: nat) returns (ids: seq<nat>, warn: bool)
      requires Valid() && 1 <= k <= num
      modifies this`alive, this`got, this`flash
      ensures Valid()
      ensures var before := RegistryModel.Sweep(old(View()), k); var rest := RegistryModel.Sweep(View(), k - 1);
        before.0 == rest.0 && before.1 == ids + rest.1 && before.2 == (warn || rest.2)
    {
      ids, warn := [], false;
      if idTime[k] == 25 && got[k] == 0 && id[k] != 0 {
        if k == doorNum {
          ids := [id[k]];
          SetAlive(id[k], 0);
        } else if k == gatewayNum {
        } else {
          warn := true;
          ids := [id[k]];
          SetAlive(id[k], 0);
        }
      }
    }

    /** The loop of Detect_All_Time. */
    method Sweep() returns (reported: seq<nat>, warn: bool)
      requires Valid()
      modifies this`alive, this`got, this`flash
      ensures Valid() && (View(), reported, warn) == RegistryModel.Sweep(old(View()), old(num))
      ensures SameSlots(old(View()), View())
    {
      ghost var want := RegistryModel.Sweep(View(), num);
      SweepInv(View(), num);
      var k := num;
      reported, warn := [], false;
      assert reported + want.1 == want.1;
      while k > 0
        invariant Valid() && 0 <= k <= num
        invariant Remaining(View(), k, want, reported, warn)
      {
        var ids, w := SweepSlot(k);
        ghost var rest := RegistryModel.Sweep(View(), k - 1).1;
        assert (reported + ids) + rest == reported + (ids + rest);
        reported, warn, k := reported + ids, warn || w, k - 1;
      }
      assert reported + [] == reported;
    }

    /** The loop of LoadDevice2Memory. */
    method LoadColumns()
      requires Shaped() && num == Get(flash, LearnNums)
      requires id == alive == slaveAlarm == Zeros()
      modifies this`id, this`alive, this`slaveAlarm
      ensures Shaped()
      ensures var want := RegistryModel.Load(flash);
        id == want.id && alive == want.alive && slaveAlarm == want.slaveAlarm
    {
      ghost var want := RegistryModel.Load(flash);
      for i := 1 to num + 1
        invariant Shaped()
        invariant forall j | 0 <= j < COLUMN :: id[j] == if j < i then want.id[j] else 0
        invariant forall j | 0 <= j < COLUMN :: alive[j] == if j < i then want.alive[j] else 0
        invariant forall j | 0 <= j < COLUMN :: slaveAlarm[j] == if j < i then want.slaveAlarm[j] else 0
      {
        id := id[i := Get(flash, Num(i))];
        if id[i] != 0 {
          alive := alive[i := Get(flash, Alive(id[i]))];
          slaveAlarm := slaveAlarm[i := Get(flash, SlaveAlarm(id[i]))];
        }
      }
      assert id == want.id;
      assert alive == want.alive;
      assert slaveAlarm == want.slaveAlarm;
    }

    /** LoadDevice2Memory */
    method Load()
      requires Shaped()
      modifies this
      ensures Shaped() && View() == RegistryModel.Load(old(flash))
      ensures old(Valid()) ==> Valid() && SameTable(View(), old(View()))
    {
      ghost var before := View();
      id, alive, slaveAlarm, idTime, got := Zeros(), Zeros(), Zeros(), Zeros(), Zeros();
      num, doorNum, gatewayNum := Get(flash, LearnNums), 0, 0;
      LoadColumns();
      doorNum := Get(flash, DOOR);
      gatewayNum := Get(flash, GATEWAY);
      if Mirror(before) {
        ReloadReproduces(before);
      }
    }

    /** DeleteAllDevice */
    method Wipe()
      requires Valid()
      modifies this
      ensures Valid() && View() == Blank() && Unique(View()) && Roles(View())
    {
      num, doorNum, gatewayNum := 0, 0, 0;
      id, alive, slaveAlarm, idTime, got := Zeros(), Zeros(), Zeros(), Zeros(), Zeros();
      flash := map[];
    }
  }
}

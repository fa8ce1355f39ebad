/** What the operations on the device table do, slot by slot and flash key by flash key. */
module RegistryLaws {
  import opened RegistryModel
  import opened RegistryInv

  /* ---- New devices ---- */

  /** k is the lowest empty slot. */
  ghost predicate Lowest(r: Reg, k: nat)
    requires Shape(r)
  {
    1 <= k <= 12 && r.id[k] == 0 && forall i | 1 <= i < k :: r.id[i] != 0
  }

  /** Slots 1 to 12 are taken. */
  ghost predicate Full(r: Reg)
    requires Shape(r)
  {
    forall i | 1 <= i <= 12 :: r.id[i] != 0
  }

  lemma LowestOrFull(r: Reg)
    requires Shape(r)
    ensures Full(r) <==> FirstEmpty(r.id, 1) == 13
    ensures forall k: nat :: Lowest(r, k) <==> k == FirstEmpty(r.id, 1) <= 12
  {
    var e := FirstEmpty(r.id, 1);
    forall k: nat
      ensures Lowest(r, k) <==> k == e <= 12
    {
      if Lowest(r, k) {
        assert !(k < e) && !(e < k);
      }
    }
  }

  /** d stands in slot k, in RAM and in flash; door and gateway slots are `door` and `gateway`. Nothing else has
      changed. */
  ghost predicate Stands(r: Reg, r1: Reg, k: nat, d: nat, door: nat, gateway: nat)
    requires Shape(r) && k < COLUMN
  {
    && r1 == r.(id := r.id[k := d], num := if k > r.num then k else r.num, doorNum := door, gatewayNum := gateway,
                flash := r1.flash)
    && Get(r1.flash, Num(k)) == d
    && Get(r1.flash, LearnNums) == (if k > r.num then k else Get(r.flash, LearnNums))
    && (door != r.doorNum ==> Get(r1.flash, DOOR) == door)
    && (gateway != r.gatewayNum ==> Get(r1.flash, GATEWAY) == gateway)
    && forall x | x != Num(k) && x != LearnNums && (x == DOOR ==> door == r.doorNum)
        && (x == GATEWAY ==> gateway == r.gatewayNum) :: Get(r1.flash, x) == Get(r.flash, x)
  }

  /** An unknown device goes to the lowest empty slot; only a full table refuses it, and then nothing changes. */
  lemma AddDeviceLaw(r: Reg, d: nat)
    requires Shape(r)
    ensures var (r1, ok) := AddDevice(r, d);
      && (Full(r) ==> !ok && r1 == r)
      && (forall k: nat | Lowest(r, k) :: ok && Stands(r, r1, k, d, r.doorNum, r.gatewayNum))
      && (ok <==> exists k: nat :: Lowest(r, k))
  {
    LowestOrFull(r);
    if !Full(r) {
      assert Lowest(r, FirstEmpty(r.id, 1));
    }
  }

  lemma DoorKnown(r: Reg, d: nat)
    requires Mirror(r) && r.doorNum != 0 && r.id[r.doorNum] != 0
    ensures var (r1, ok) := AddDoor(r, d); ok && Stands(r, r1, r.doorNum, d, r.doorNum, r.gatewayNum)
  {}

  lemma DoorNew(r: Reg, d: nat, k: nat)
    requires Mirror(r) && (r.doorNum == 0 || r.id[r.doorNum] == 0) && Lowest(r, k)
    ensures var (r1, ok) := AddDoor(r, d); ok && Stands(r, r1, k, d, k, r.gatewayNum)
  {
    LowestOrFull(r);
  }

  lemma DoorRefused(r: Reg, d: nat)
    requires Mirror(r) && (r.doorNum == 0 || r.id[r.doorNum] == 0) && Full(r)
    ensures AddDoor(r, d) == (r, false)
  {
    LowestOrFull(r);
  }

  /** A door takes the slot of the door known before, else the lowest empty one. */
  lemma AddDoorLaw(r: Reg, d: nat)
    requires Mirror(r)
    ensures var (r1, ok) := AddDoor(r, d);
      var known := r.doorNum != 0 && r.id[r.doorNum] != 0;
      && (known ==> ok && Stands(r, r1, r.doorNum, d, r.doorNum, r.gatewayNum))
      && (!known && Full(r) ==> !ok && r1 == r)
      && (!known ==> forall k: nat | Lowest(r, k) :: ok && Stands(r, r1, k, d, k, r.gatewayNum))
      && (ok <==> known || exists k: nat :: Lowest(r, k))
  {
    LowestOrFull(r);
    if r.doorNum != 0 && r.id[r.doorNum] != 0 {
      DoorKnown(r, d);
    } else if Full(r) {
      DoorRefused(r, d);
    } else {
      assert Lowest(r, FirstEmpty(r.id, 1));
      DoorNew(r, d, FirstEmpty(r.id, 1));
    }
  }

  lemma GatewayKnown(r: Reg, d: nat)
    requires Mirror(r) && r.gatewayNum != 0 && r.id[r.gatewayNum] != 0
    ensures var (r1, ok) := AddGateway(r, d); ok && Stands(r, r1, r.gatewayNum, d, r.doorNum, r.gatewayNum)
  {}

  lemma GatewayNew(r: Reg, d: nat, k: nat)
    requires Mirror(r) && (r.gatewayNum == 0 || r.id[r.gatewayNum] == 0) && Lowest(r, k)
    ensures var (r1, ok) := AddGateway(r, d); ok && Stands(r, r1, k, d, r.doorNum, k)
  {
    LowestOrFull(r);
  }

  lemma GatewayRefused(r: Reg, d: nat)
    requires Mirror(r) && (r.gatewayNum == 0 || r.id[r.gatewayNum] == 0) && Full(r)
    ensures AddGateway(r, d) == (r, false)
  {
    LowestOrFull(r);
  }

  /** So does a gateway. */
  lemma AddGatewayLaw(r: Reg, d: nat)
    requires Mirror(r)
    ensures var (r1, ok) := AddGateway(r, d);
      var known := r.gatewayNum != 0 && r.id[r.gatewayNum] != 0;
      && (known ==> ok && Stands(r, r1, r.gatewayNum, d, r.doorNum, r.gatewayNum))
      && (!known && Full(r) ==> !ok && r1 == r)
      && (!known ==> forall k: nat | Lowest(r, k) :: ok && Stands(r, r1, k, d, r.doorNum, k))
      && (ok <==> known || exists k: nat :: Lowest(r, k))
  {
    LowestOrFull(r);
    if r.gatewayNum != 0 && r.id[r.gatewayNum] != 0 {
      GatewayKnown(r, d);
    } else if Full(r) {
      GatewayRefused(r, d);
    } else {
      assert Lowest(r, FirstEmpty(r.id, 1));
      GatewayNew(r, d, FirstEmpty(r.id, 1));
    }
  }

  /** One learning request of an unknown id: door and gateway ids by their range, and where they go. */
  ghost predicate LearnedAt(r: Reg, r1: Reg, from: int, k: nat)
    requires Shape(r) && -0x8000_0000 <= from
  {
    var door, gateway := 30000000 <= from < 40000000, 40000000 <= from < 50000000;
    && 1 <= k <= 12
    && Stands(r, r1, k, if from < 0 then from + 0x1_0000_0000 else from,
              if door then k else r.doorNum, if gateway then k else r.gatewayNum)
    && (Lowest(r, k) || (door && k == r.doorNum) || (gateway && k == r.gatewayNum))
  }

  /** Only a full table refuses, unless the request replaces the known door or gateway. */
  ghost predicate Refuses(r: Reg, from: int)
    requires Shape(r)
  {
    && from < 50000000 && Full(r)
    && (30000000 <= from < 40000000 ==> r.doorNum == 0 || r.id[r.doorNum] == 0)
    && (40000000 <= from < 50000000 ==> r.gatewayNum == 0 || r.id[r.gatewayNum] == 0)
  }

  lemma LearnLaw(r: Reg, from: int)
    requires Mirror(r) && -0x8000_0000 <= from < 0x8000_0000
    ensures var (r1, ok) := Learn(r, from);
      && (ok <==> !Refuses(r, from)) && (Refuses(r, from) || from >= 50000000 ==> r1 == r)
      && (ok && from < 50000000 ==> exists k: nat :: LearnedAt(r, r1, from, k))
  {
    var d, e := ToU32(from), FirstEmpty(r.id, 1);
    assert d == if from < 0 then from + 0x1_0000_0000 else from;
    LowestOrFull(r);
    if from < 30000000 {
      LearnPlain(r, from, d, e);
    } else if from < 40000000 {
      LearnDoor(r, from, e);
    } else if from < 50000000 {
      LearnGateway(r, from, e);
    }
  }

  lemma LearnPlain(r: Reg, from: int, d: nat, e: nat)
    requires Mirror(r) && -0x8000_0000 <= from < 30000000
    requires d == ToU32(from) == (if from < 0 then from + 0x1_0000_0000 else from)
    requires if Full(r) then e == 13 else Lowest(r, e)
    ensures Learn(r, from) == AddDevice(r, d)
    ensures if Full(r) then AddDevice(r, d) == (r, false)
            else AddDevice(r, d).1 && LearnedAt(r, AddDevice(r, d).0, from, e)
  {
    AddDeviceLaw(r, d);
  }

  lemma LearnDoor(r: Reg, from: int, e: nat)
    requires Mirror(r) && 30000000 <= from < 40000000 && if Full(r) then e == 13 else Lowest(r, e)
    ensures Learn(r, from) == AddDoor(r, from)
    ensures if Refuses(r, from) then AddDoor(r, from) == (r, false)
            else AddDoor(r, from).1 && exists k: nat :: LearnedAt(r, AddDoor(r, from).0, from, k)
  {
    if r.doorNum != 0 && r.id[r.doorNum] != 0 {
      DoorKnown(r, from);
      assert LearnedAt(r, AddDoor(r, from).0, from, r.doorNum);
    } else if Full(r) {
      DoorRefused(r, from);
    } else {
      DoorNew(r, from, e);
      assert LearnedAt(r, AddDoor(r, from).0, from, e);
    }
  }

  lemma LearnGateway(r: Reg, from: int, e: nat)
    requires Mirror(r) && 40000000 <= from < 50000000 && if Full(r) then e == 13 else Lowest(r, e)
    ensures Learn(r, from) == AddGateway(r, from)
    ensures if Refuses(r, from) then AddGateway(r, from) == (r, false)
            else AddGateway(r, from).1 && exists k: nat :: LearnedAt(r, AddGateway(r, from).0, from, k)
  {
    if r.gatewayNum != 0 && r.id[r.gatewayNum] != 0 {
      GatewayKnown(r, from);
      assert LearnedAt(r, AddGateway(r, from).0, from, r.gatewayNum);
    } else if Full(r) {
      GatewayRefused(r, from);
    } else {
      GatewayNew(r, from, e);
      assert LearnedAt(r, AddGateway(r, from).0, from, e);
    }
  }

  /* ---- Slave alarms ---- */

  /** A report of device d in slot k: its column in RAM is set; its flash key is written only if the column
      differed. */
  lemma AlarmLaw(r: Reg, d: nat, k: nat, v: nat)
    requires TableOk(r) && d != 0 && 1 <= k <= r.num && r.id[k] == d
    ensures var r1 := SetSlaveAlarm(r, d, v);
      && r1 == r.(slaveAlarm := r.slaveAlarm[k := v], flash := r1.flash)
      && Get(r1.flash, SlaveAlarm(d)) == (if r.slaveAlarm[k] != v then v else Get(r.flash, SlaveAlarm(d)))
      && forall x | x != SlaveAlarm(d) :: Get(r1.flash, x) == Get(r.flash, x)
  {
    SlotOf(r, d, k);
    assert r.slaveAlarm[k] == v ==> r.slaveAlarm[k := v] == r.slaveAlarm;
  }

  /** What a reload finds: the stored columns of the stored ids, no time and no message counted. */
  lemma LoadLaw(r: Reg, i: nat)
    requires Mirror(r) && i < COLUMN
    ensures var l := Load(r.flash);
      && l.id[i] == r.id[i] && l.flash == r.flash
      && l.alive[i] == (if r.id[i] != 0 then Get(r.flash, Alive(r.id[i])) else 0)
      && l.slaveAlarm[i] == (if r.id[i] != 0 then Get(r.flash, SlaveAlarm(r.id[i])) else 0)
      && l.idTime[i] == 0 && l.got[i] == 0
  {
    ReloadReproduces(r);
  }

  ghost predicate Pending(r: Reg, k: nat)
    requires Shape(r) && k < COLUMN
  {
    r.id[k] != 0 && Get(r.flash, SlaveAlarm(r.id[k])) != 0
  }

  /** After a reload an alarm is pending iff one is stored for some id of the table. */
  lemma PendingLaw(r: Reg)
    requires Mirror(r)
    ensures Shape(Load(r.flash))
    ensures AnySlaveAlarm(Load(r.flash)) <==> exists k :: 1 <= k <= r.num && Pending(r, k)
  {
    ReloadReproduces(r);
    var l := Load(r.flash);
    forall k | 1 <= k <= r.num
      ensures l.slaveAlarm[k] != 0 <==> Pending(r, k)
    {
      LoadLaw(r, k);
    }
  }

  /** A reported alarm survives a reload exactly if its column was not set already, or its key was. */
  lemma AlarmReloads(r: Reg, d: nat, k: nat)
    requires TableOk(r) && d != 0 && 1 <= k <= r.num && r.id[k] == d
    ensures var r1 := SetSlaveAlarm(r, d, 1);
      Load(r1.flash).slaveAlarm[k] == 1 <==> r.slaveAlarm[k] != 1 || Get(r.flash, SlaveAlarm(d)) == 1
  {
    AlarmLaw(r, d, k, 1);
    SetSlaveAlarmInv(r, d, 1);
    LoadLaw(SetSlaveAlarm(r, d, 1), k);
  }

  /** A deleted device leaves its column behind: the alarm of the device that moves into its slot is not stored,
      and a reload forgets it. */
  lemma StaleColumnLosesAlarm()
    ensures var r1 := Learn(Blank(), 5).0;
      && Shape(r1) && var r2 := SetSlaveAlarm(r1, 5, 1);
      && var r3 := Delete(r2, 5);
      && Shape(r3) && var r4 := Learn(r3, 6).0;
      && Shape(r4) && Registered(r4, 6) && var r5 := SetSlaveAlarm(r4, 6, 1);
      && AnySlaveAlarm(r5) && Shape(Load(r5.flash)) && !AnySlaveAlarm(Load(r5.flash))
  {
    var r0 := Blank();
    assert FirstEmpty(r0.id, 1) == 1;
    var r1 := Learn(r0, 5).0;
    assert r1.id[1] == 5 && r1.num == 1 && Find(r1.id, 1, 5) == 1;
    var r2 := SetSlaveAlarm(r1, 5, 1);
    var r3 := Delete(r2, 5);
    assert r3.id[1] == 0 && FirstEmpty(r3.id, 1) == 1;
    var r4 := Learn(r3, 6).0;
    assert r4.id[1] == 6 && r4.slaveAlarm[1] == 1 && Find(r4.id, 1, 6) == 1;
    var r5 := SetSlaveAlarm(r4, 6, 1);
    assert r5 == r4 && Get(r5.flash, SlaveAlarm(6)) == 0;
    assert Load(r5.flash).num == 1 && Load(r5.flash).id[1] == 6;
  }

  /* ---- Messages and hours ---- */

  /** The alive column of slot k and the mark that a message came; the flash key is written if either changes. */
  lemma AliveLaw(r: Reg, d: nat, k: nat, v: nat)
    requires TableOk(r) && d != 0 && 1 <= k <= r.num && r.id[k] == d
    ensures var r1 := SetAlive(r, d, v);
      && r1 == r.(alive := r.alive[k := v], got := r.got[k := v], flash := r1.flash)
      && Get(r1.flash, Alive(d)) == (if r.alive[k] != v || r.got[k] != v then v else Get(r.flash, Alive(d)))
      && forall x | x != Alive(d) :: Get(r1.flash, x) == Get(r.flash, x)
  {
    SlotOf(r, d, k);
    if r.alive[k] == v && r.got[k] == v {
      assert r.alive[k := v] == r.alive && r.got[k := v] == r.got;
    }
  }

  lemma ClearTimeLaw(r: Reg, d: nat, k: nat)
    requires TableOk(r) && d != 0 && 1 <= k <= r.num && r.id[k] == d
    ensures ClearTime(r, d) == r.(idTime := r.idTime[k := 0])
  {
    SlotOf(r, d, k);
  }

  /** An id that no slot holds changes nothing. */
  lemma StrangerLaw(r: Reg, d: nat, v: nat)
    requires Shape(r) && (forall i | 1 <= i <= r.num :: r.id[i] != d)
    ensures SetAlive(r, d, v) == SetSlaveAlarm(r, d, v) == ClearTime(r, d) == Delete(r, d) == r && !Registered(r, d)
  {}
}

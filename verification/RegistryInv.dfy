/** What every sequence of registry operations preserves. */
module RegistryInv {
  import opened RegistryModel

  /** Flash holds everything that LoadDevice2Memory needs to rebuild the table. */
  ghost predicate Mirror(r: Reg) {
    && Shape(r) && r.doorNum <= r.num && r.gatewayNum <= r.num
    && Get(r.flash, LearnNums) == r.num
    && Get(r.flash, DOOR) == r.doorNum && Get(r.flash, GATEWAY) == r.gatewayNum
    && (forall i | 1 <= i < COLUMN :: Get(r.flash, Num(i)) == r.id[i])
    && (forall i | 0 <= i < COLUMN && (i == 0 || i > r.num) :: r.id[i] == 0)
  }

  /** No nonzero id occupies two slots. */
  ghost predicate Unique(r: Reg) {
    forall i, j | 0 <= i < j < |r.id| && r.id[i] != 0 :: r.id[i] != r.id[j]
  }

  ghost predicate TableOk(r: Reg) { Mirror(r) && Unique(r) }

  /** Each role slot holds the only id of that role's range. */
  ghost predicate DoorRole(r: Reg) {
    forall i | 0 <= i < |r.id| :: IsDoor(r.id[i]) <==> i == r.doorNum != 0
  }

  ghost predicate GatewayRole(r: Reg) {
    forall i | 0 <= i < |r.id| :: IsGateway(r.id[i]) <==> i == r.gatewayNum != 0
  }

  ghost predicate Roles(r: Reg) { DoorRole(r) && GatewayRole(r) }

  /** The columns a reload reproduces. */
  ghost predicate SameTable(a: Reg, b: Reg) {
    a.num == b.num && a.id == b.id && a.doorNum == b.doorNum && a.gatewayNum == b.gatewayNum
  }

  lemma BlankInv()
    ensures Mirror(Blank()) && Unique(Blank()) && Roles(Blank())
  {}

  /** Reloading from flash reproduces the table. */
  lemma ReloadReproduces(r: Reg)
    requires Mirror(r)
    ensures SameTable(Load(r.flash), r) && Mirror(Load(r.flash))
  {
    var l := Load(r.flash);
    assert forall i | 0 <= i < COLUMN :: l.id[i] == r.id[i];
  }

  lemma RegisteredIff(r: Reg, d: nat)
    requires Shape(r)
    ensures Registered(r, d) <==> exists i :: 1 <= i <= r.num && r.id[i] == d
  {}

  lemma SlotOf(r: Reg, d: nat, k: nat)
    requires Mirror(r) && Unique(r) && d != 0 && 1 <= k <= r.num && r.id[k] == d
    ensures Find(r.id, r.num, d) == k
  {}

  /** Writing `d` over slot `k` of an inhabited or fresh part of the table. */
  lemma PutInv(r: Reg, k: nat, d: nat)
    requires Mirror(r) && 1 <= k <= r.num
    ensures Mirror(Put(r, k, d))
    ensures Unique(r) && (d == 0 || !Registered(r, d)) ==> Unique(Put(r, k, d))
  {
    var r1 := Put(r, k, d);
    if Unique(r) && (d == 0 || !Registered(r, d)) {
      RegisteredIff(r, d);
      forall i, j | 0 <= i < j < |r1.id| && r1.id[i] != 0 ensures r1.id[i] != r1.id[j] {
        assert r1.id[i] == if i == k then d else r.id[i];
        assert r1.id[j] == if j == k then d else r.id[j];
      }
    }
  }

  lemma NewSlotInv(r: Reg)
    requires Mirror(r)
    ensures var (r1, k) := NewSlot(r);
      && Mirror(r1) && r1.id == r.id && (k != 0 ==> 1 <= k <= r1.num && r.id[k] == 0)
      && r1.doorNum == r.doorNum && r1.gatewayNum == r.gatewayNum
  {
    var k := FirstEmpty(r.id, 1);
    if k < MAX_SUPPORT && k > r.num {
      assert forall i | 1 <= i <= r.num :: r.id[i] != 0;
      assert k == r.num + 1;
    }
  }

  lemma StillUnregistered(r: Reg, d: nat)
    requires Mirror(r) && d != 0 && !Registered(r, d)
    ensures !Registered(NewSlot(r).0, d)
  {
    NewSlotInv(r);
    RegisteredIff(r, d);
    RegisteredIff(NewSlot(r).0, d);
  }

  /** What adding `d` keeps: the mirror always, the rest if d was not in the table. */
  ghost predicate Added(r: Reg, r1: Reg, d: nat, role: bool) {
    && Mirror(r1)
    && (Unique(r) && !Found(r, d) ==> Unique(r1))
    && (Roles(r) && !Found(r, d) && role ==> Roles(r1))
  }

  /** Registered, for tables of any shape. */
  ghost predicate Found(r: Reg, d: nat) { Shape(r) && Registered(r, d) }

  lemma AddDeviceInv(r: Reg, d: nat)
    requires Mirror(r)
    ensures Added(r, AddDevice(r, d).0, d, !IsDoor(d) && !IsGateway(d))
  {
    NewSlotInv(r);
    var (r1, k) := NewSlot(r);
    if k != 0 {
      if d != 0 && !Registered(r, d) { StillUnregistered(r, d); }
      PutInv(r1, k, d);
    }
  }

  /** Where AddDoor and AddGateway put the newcomer. */
  ghost predicate Placed(r: Reg, r1: Reg, k: nat, d: nat) {
    && |r1.id| == |r.id| && 1 <= k < |r.id|
    && forall i | 0 <= i < |r.id| :: r1.id[i] == if i == k then d else r.id[i]
  }

  lemma DoorPlaced(r: Reg, r1: Reg, k: nat, d: nat)
    requires Placed(r, r1, k, d) && IsDoor(d) && Roles(r) && r1.doorNum == k && r1.gatewayNum == r.gatewayNum
    requires k == r.doorNum || (r.doorNum == 0 && r.id[k] == 0)
    ensures Roles(r1)
  {}

  lemma GatewayPlaced(r: Reg, r1: Reg, k: nat, d: nat)
    requires Placed(r, r1, k, d) && IsGateway(d) && Roles(r) && r1.gatewayNum == k && r1.doorNum == r.doorNum
    requires k == r.gatewayNum || (r.gatewayNum == 0 && r.id[k] == 0)
    ensures Roles(r1)
  {}

  lemma DoorReplaced(r: Reg, d: nat)
    requires Mirror(r) && DoorId(r) != 0
    ensures Added(r, AddDoor(r, d).0, d, IsDoor(d))
  {
    PutInv(r, r.doorNum, d);
    if Roles(r) && IsDoor(d) { DoorPlaced(r, AddDoor(r, d).0, r.doorNum, d); }
  }

  lemma DoorAdded(r: Reg, d: nat)
    requires Mirror(r) && DoorId(r) == 0 && NewSlot(r).1 != 0
    ensures var r1 := AddDoor(r, d).0; Mirror(r1) && (Unique(r) && !Registered(r, d) ==> Unique(r1))
  {
    NewSlotInv(r);
    if d != 0 && !Registered(r, d) { StillUnregistered(r, d); }
    var (n, k) := NewSlot(r);
    PutInv(n, k, d);
  }

  lemma DoorAddedRoles(r: Reg, d: nat)
    requires Mirror(r) && Roles(r) && IsDoor(d) && DoorId(r) == 0 && NewSlot(r).1 != 0
    ensures Roles(AddDoor(r, d).0)
  {
    NewSlotInv(r);
    DoorPlaced(r, AddDoor(r, d).0, NewSlot(r).1, d);
  }

  lemma AddDoorInv(r: Reg, d: nat)
    requires Mirror(r)
    ensures Added(r, AddDoor(r, d).0, d, IsDoor(d))
  {
    if DoorId(r) != 0 {
      DoorReplaced(r, d);
    } else if NewSlot(r).1 != 0 {
      DoorAdded(r, d);
      if Roles(r) && IsDoor(d) { DoorAddedRoles(r, d); }
    } else {
      NewSlotInv(r);
    }
  }

  lemma GatewayReplaced(r: Reg, d: nat)
    requires Mirror(r) && GatewayId(r) != 0
    ensures Added(r, AddGateway(r, d).0, d, IsGateway(d))
  {
    PutInv(r, r.gatewayNum, d);
    if Roles(r) && IsGateway(d) { GatewayPlaced(r, AddGateway(r, d).0, r.gatewayNum, d); }
  }

  lemma GatewayAdded(r: Reg, d: nat)
    requires Mirror(r) && GatewayId(r) == 0 && NewSlot(r).1 != 0
    ensures var r1 := AddGateway(r, d).0; Mirror(r1) && (Unique(r) && !Registered(r, d) ==> Unique(r1))
  {
    NewSlotInv(r);
    if d != 0 && !Registered(r, d) { StillUnregistered(r, d); }
    var (n, k) := NewSlot(r);
    PutInv(n, k, d);
  }

  lemma GatewayAddedRoles(r: Reg, d: nat)
    requires Mirror(r) && Roles(r) && IsGateway(d) && GatewayId(r) == 0 && NewSlot(r).1 != 0
    ensures Roles(AddGateway(r, d).0)
  {
    NewSlotInv(r);
    GatewayPlaced(r, AddGateway(r, d).0, NewSlot(r).1, d);
  }

  lemma AddGatewayInv(r: Reg, d: nat)
    requires Mirror(r)
    ensures Added(r, AddGateway(r, d).0, d, IsGateway(d))
  {
    if GatewayId(r) != 0 {
      GatewayReplaced(r, d);
    } else if NewSlot(r).1 != 0 {
      GatewayAdded(r, d);
      if Roles(r) && IsGateway(d) { GatewayAddedRoles(r, d); }
    } else {
      NewSlotInv(r);
    }
  }

  lemma AddedRole(r: Reg, r1: Reg, d: nat, role: bool)
    requires Added(r, r1, d, role) && role
    ensures Added(r, r1, d, true)
  {}

  lemma NothingAdded(r: Reg, d: nat)
    requires Mirror(r)
    ensures Added(r, r, d, true)
  {}

  /** Learning keeps the mirror, uniqueness and both roles. */
  lemma LearnInv(r: Reg, from: int)
    requires Mirror(r) && -0x8000_0000 <= from < 0x8000_0000
    ensures Added(r, Learn(r, from).0, ToU32(from), true)
  {
    var d := ToU32(from);
    if from < 30000000 {
      AddDeviceInv(r, d);
      AddedRole(r, AddDevice(r, d).0, d, !IsDoor(d) && !IsGateway(d));
    } else if from < 40000000 {
      AddDoorInv(r, d);
      AddedRole(r, AddDoor(r, d).0, d, IsDoor(d));
    } else if from < 50000000 {
      AddGatewayInv(r, d);
      AddedRole(r, AddGateway(r, d).0, d, IsGateway(d));
    } else {
      NothingAdded(r, d);
    }
  }

  /** What was added can be found. */
  lemma AddDeviceHolds(r: Reg, d: nat)
    requires Mirror(r)
    ensures var (r1, ok) := AddDevice(r, d); Shape(r1) && (ok ==> Registered(r1, d))
  {
    NewSlotInv(r);
    var (r1, k) := NewSlot(r);
    if k != 0 {
      PutInv(r1, k, d);
      RegisteredIff(Put(r1, k, d), d);
    }
  }

  /** A new door or gateway stands in its role slot. */
  lemma AddRoleHolds(r: Reg, d: nat)
    requires Mirror(r)
    ensures var (r1, ok) := AddDoor(r, d); Shape(r1) && (ok ==> DoorId(r1) == d)
    ensures var (r1, ok) := AddGateway(r, d); Shape(r1) && (ok ==> GatewayId(r1) == d)
  {
    NewSlotInv(r);
    AddDoorInv(r, d);
    AddGatewayInv(r, d);
  }

  /** Deletion keeps mirror and uniqueness. It keeps the roles exactly when the deleted device is not
      the gateway: Delete_Device never resets GatewayNum. */
  lemma DeleteInv(r: Reg, d: nat)
    requires Mirror(r) && Unique(r)
    ensures var r1 := Delete(r, d);
      && Mirror(r1) && Unique(r1)
      && (Roles(r) ==> (Roles(r1) <==> !(d != 0 && d == GatewayId(r))))
  {
    var k := Find(r.id, r.num, d);
    if k > 0 {
      PutInv(r, k, 0);
      var r1 := Delete(r, d);
      assert forall i | 0 <= i < COLUMN :: r1.id[i] == if i == k then 0 else r.id[i];
      if Roles(r) {
        assert d != 0 && d == GatewayId(r) ==> k == r.gatewayNum && !IsGateway(r1.id[k]);
        assert DoorRole(r1);
        if !(d != 0 && d == GatewayId(r)) { assert GatewayRole(r1); }
      }
    }
  }

  /** A deleted device is gone, every other one is still there. */
  lemma DeleteLeaves(r: Reg, d: nat)
    requires Mirror(r) && Unique(r)
    ensures d != 0 ==> !Found(Delete(r, d), d)
    ensures forall x | x != 0 && x != d :: Found(Delete(r, d), x) == Found(r, x)
  {
    var k := Find(r.id, r.num, d);
    var r1 := Delete(r, d);
    if k > 0 {
      assert forall i | 0 <= i < COLUMN :: r1.id[i] == if i == k then 0 else r.id[i];
      PutInv(r, k, 0);
      RegisteredIff(r1, d);
      forall x | x != 0 && x != d
        ensures Found(r1, x) == Found(r, x)
      {
        RegisteredIff(r, x);
        RegisteredIff(r1, x);
        assert forall i | 0 <= i < COLUMN :: r1.id[i] == x <==> r.id[i] == x;
      }
    }
  }

  /** Exactly `d` is gone, nothing is stored twice, and the roles hold unless d was the gateway. */
  ghost predicate Deleted(r: Reg, r1: Reg, d: nat)
    requires Shape(r)
  {
    && Unique(r1) && (d != 0 ==> !Found(r1, d)) && (forall x | x != 0 && x != d :: Found(r1, x) == Found(r, x))
    && (Roles(r) ==> (Roles(r1) <==> !(d != 0 && d == GatewayId(r))))
  }

  lemma DeleteKeeps(r: Reg, d: nat)
    requires Mirror(r)
    ensures Mirror(Delete(r, d)) && (Unique(r) ==> Deleted(r, Delete(r, d), d))
  {
    var k := Find(r.id, r.num, d);
    if k > 0 {
      PutInv(r, k, 0);
    }
    if Unique(r) {
      DeleteInv(r, d);
      DeleteLeaves(r, d);
    }
  }

  /** Same ids, slots and roles, and still mirrored. */
  ghost predicate SameSlots(r: Reg, r1: Reg) {
    && Mirror(r1) && r1.id == r.id && r1.num == r.num && r1.doorNum == r.doorNum && r1.gatewayNum == r.gatewayNum
  }

  lemma SetAliveInv(r: Reg, d: nat, v: nat)
    requires Mirror(r)
    ensures SameSlots(r, SetAlive(r, d, v))
  {}

  lemma SetSlaveAlarmInv(r: Reg, d: nat, v: nat)
    requires Mirror(r)
    ensures SameSlots(r, SetSlaveAlarm(r, d, v))
  {}

  lemma {:induction false} SweepInv(r: Reg, n: nat)
    requires Mirror(r) && n < MAX_SUPPORT
    ensures var r1 := Sweep(r, n).0;
      SameSlots(r, r1) && r1.slaveAlarm == r.slaveAlarm && r1.idTime == r.idTime
    decreases n
  {
    if n > 0 {
      if Silent(r, n) && (n == r.doorNum || n != r.gatewayNum) {
        SetAliveInv(r, r.id[n], 0);
        SweepInv(SetAlive(r, r.id[n], 0), n - 1);
      } else {
        SweepInv(r, n - 1);
      }
    }
  }

  /** After a gateway is deleted individually, its slot can go to an ordinary device, and the next
      gateway then overwrites that device. */
  lemma DeletedGatewayLosesDevice()
    ensures var r1 := Learn(Blank(), 40000001).0;
      && Shape(r1) && var r2 := Delete(r1, 40000001);
      && Shape(r2) && var r3 := Learn(r2, 5).0;
      && Shape(r3) && Registered(r3, 5) && var r4 := Learn(r3, 40000002).0;
      && Shape(r4) && !Registered(r4, 5)
  {
    var r0 := Blank();
    assert FirstEmpty(r0.id, 1) == 1;
    var r1 := Learn(r0, 40000001).0;
    assert r1.id[1] == 40000001 && r1.num == 1 && Find(r1.id, 1, 40000001) == 1;
    var r2 := Delete(r1, 40000001);
    assert r2.id[1] == 0 && r2.gatewayNum == 1 && FirstEmpty(r2.id, 1) == 1;
    var r3 := Learn(r2, 5).0;
    assert r3.id[1] == 5 && Find(r3.id, 1, 5) == 1 && GatewayId(r3) == 5;
    var r4 := Learn(r3, 40000002).0;
    assert r4.id[1] == 40000002 && Find(r4.id, 1, 5) == 0;
  }

  /** A newly learned gateway pushes out exactly the device whose id stands in the gateway slot: the old
      gateway, or whatever moved in there after the old gateway was deleted. */
  lemma GatewayOverwrites(r: Reg, d: nat, x: nat)
    requires Mirror(r) && Unique(r) && IsGateway(d) && !Registered(r, d) && x != 0 && Registered(r, x)
    ensures Shape(AddGateway(r, d).0)
    ensures !Registered(AddGateway(r, d).0, x) <==> x == GatewayId(r)
  {
    AddGatewayInv(r, d);
    NewSlotInv(r);
    var r1 := AddGateway(r, d).0;
    RegisteredIff(r, x);
    RegisteredIff(r1, x);
    var i :| 1 <= i <= r.num && r.id[i] == x;
    assert r1.id[i] == x || i == r.gatewayNum;
  }
}

/** storage/flashwork.c: the table of learned devices (Global_Device) and its copy in flash. */
module RegistryModel {

  /** Slots 1 .. MAX_SUPPORT - 1 of the 20-entry columns are used. */
  const MAX_SUPPORT: nat := 13
  const COLUMN: nat := 20

  /** Flash keys of the table: "Learn_Nums", decimal numbers, "alive:<id>" and "SlaveAlarm:<id>". The key
      "Moto" belongs to the valve. */
  datatype Key = LearnNums | Num(n: nat) | Alive(id: nat) | SlaveAlarm(id: nat)
  const DOOR: Key := Num(88888888)
  const GATEWAY: Key := Num(88887777)

  type Flash = map<Key, nat>

  /** A missing key reads as 0. */
  function Get(f: Flash, k: Key): nat { if k in f then f[k] else 0 }

  datatype Reg = Reg(num: nat, doorNum: nat, gatewayNum: nat,
                     id: seq<nat>, alive: seq<nat>, slaveAlarm: seq<nat>, idTime: seq<nat>, got: seq<nat>,
                     flash: Flash)

  predicate Shape(r: Reg) {
    && r.num < MAX_SUPPORT && r.doorNum < MAX_SUPPORT && r.gatewayNum < MAX_SUPPORT
    && |r.id| == |r.alive| == |r.slaveAlarm| == |r.idTime| == |r.got| == COLUMN
    && Get(r.flash, LearnNums) < MAX_SUPPORT && Get(r.flash, DOOR) < MAX_SUPPORT && Get(r.flash, GATEWAY) < MAX_SUPPORT
  }

  function Zeros(): seq<nat> { seq(COLUMN, _ => 0) }

  /** Erased flash and memset Global_Device. */
  function Blank(): Reg { Reg(0, 0, 0, Zeros(), Zeros(), Zeros(), Zeros(), Zeros(), map[]) }

  /* ---- Lookups ---- */

  /** The highest slot in 1..n that holds `d`, or 0: every search in the file runs downwards from Num. */
  function Find(ids: seq<nat>, n: nat, d: nat): (k: nat)
    requires n < |ids|
    ensures k <= n && (k > 0 ==> ids[k] == d)
    ensures forall i | k < i <= n :: ids[i] != d
  {
    if n == 0 || ids[n] == d then n else Find(ids, n - 1, d)
  }

  /** Flash_Get_Key_Valid */
  predicate Registered(r: Reg, d: nat)
    requires Shape(r)
  {
    Find(r.id, r.num, d) > 0
  }

  function DoorId(r: Reg): nat
    requires Shape(r)
  {
    if r.doorNum == 0 then 0 else r.id[r.doorNum]
  }

  function GatewayId(r: Reg): nat
    requires Shape(r)
  {
    if r.gatewayNum == 0 then 0 else r.id[r.gatewayNum]
  }

  predicate IsDoor(d: nat) { 30000000 <= d < 40000000 }
  predicate IsGateway(d: nat) { 40000000 <= d < 50000000 }

  /** The first empty slot from n on, or MAX_SUPPORT. */
  function FirstEmpty(ids: seq<nat>, n: nat): (k: nat)
    requires 1 <= n <= MAX_SUPPORT && |ids| == COLUMN
    ensures n <= k <= MAX_SUPPORT && (k < MAX_SUPPORT ==> ids[k] == 0)
    ensures forall i | n <= i < k :: ids[i] != 0
    decreases MAX_SUPPORT - n
  {
    if n == MAX_SUPPORT || ids[n] == 0 then n else FirstEmpty(ids, n + 1)
  }

  /* ---- Updates ---- */

  /** Get_LearnNums_Valid: the slot for a new device (0 when full); Num grows if it is beyond Num. */
  function NewSlot(r: Reg): (Reg, nat)
    requires Shape(r)
  {
    var k := FirstEmpty(r.id, 1);
    if k == MAX_SUPPORT then (r, 0)
    else if k > r.num then (r.(num := k, flash := r.flash[LearnNums := k]), k)
    else (r, k)
  }

  function Put(r: Reg, k: nat, d: nat): Reg
    requires Shape(r) && k < COLUMN
  {
    r.(id := r.id[k := d], flash := r.flash[Num(k) := d])
  }

  function AddDevice(r: Reg, d: nat): (Reg, bool)
    requires Shape(r)
  {
    var (r1, k) := NewSlot(r);
    if k == 0 then (r1, false) else (Put(r1, k, d), true)
  }

  function SetDoor(r: Reg, k: nat): Reg { r.(doorNum := k, flash := r.flash[DOOR := k]) }
  function SetGateway(r: Reg, k: nat): Reg { r.(gatewayNum := k, flash := r.flash[GATEWAY := k]) }

  /** Add_DoorDevice: a known door is replaced in the slot that flash names. */
  function AddDoor(r: Reg, d: nat): (Reg, bool)
    requires Shape(r)
  {
    if DoorId(r) != 0 then
      var k := Get(r.flash, DOOR);
      (SetDoor(Put(r, k, d), k), true)
    else
      var (r1, k) := NewSlot(r);
      if k == 0 then (r1, false) else (SetDoor(Put(r1, k, d), k), true)
  }

  function AddGateway(r: Reg, d: nat): (Reg, bool)
    requires Shape(r)
  {
    if GatewayId(r) != 0 then
      var k := Get(r.flash, GATEWAY);
      (SetGateway(Put(r, k, d), k), true)
    else
      var (r1, k) := NewSlot(r);
      if k == 0 then (r1, false) else (SetGateway(Put(r1, k, d), k), true)
  }

  /** Delete_Device: only a door resets its role number. */
  function Delete(r: Reg, d: nat): Reg
    requires Shape(r)
  {
    var k := Find(r.id, r.num, d);
    if k == 0 then r
    else
      var r1 := Put(r, k, 0);
      if IsDoor(d) then SetDoor(r1, 0) else r1
  }

  /** Device_AliveChange */
  function SetAlive(r: Reg, d: nat, v: nat): (r1: Reg)
    requires Shape(r)
    ensures Shape(r1) && r1.num == r.num && r1.id == r.id
  {
    var k := Find(r.id, r.num, d);
    if k > 0 && (r.alive[k] != v || r.got[k] != v) then
      r.(alive := r.alive[k := v], got := r.got[k := v], flash := r.flash[Alive(d) := v])
    else r
  }

  /** Flash_Set_SlaveAlarmFlag */
  function SetSlaveAlarm(r: Reg, d: nat, v: nat): (r1: Reg)
    requires Shape(r)
    ensures Shape(r1) && r1.num == r.num && r1.id == r.id
  {
    var k := Find(r.id, r.num, d);
    if k > 0 && r.slaveAlarm[k] != v then r.(slaveAlarm := r.slaveAlarm[k := v], flash := r.flash[SlaveAlarm(d) := v])
    else r
  }

  /** Flash_Get_SlaveAlarmFlag */
  predicate AnySlaveAlarm(r: Reg)
    requires Shape(r)
  {
    exists k | 1 <= k <= r.num :: r.slaveAlarm[k] != 0
  }

  /** Clear_Device_Time */
  function ClearTime(r: Reg, d: nat): (r1: Reg)
    requires Shape(r)
    ensures Shape(r1) && r1.num == r.num && r1.id == r.id
  {
    var k := Find(r.id, r.num, d);
    if k > 0 then r.(idTime := r.idTime[k := 0]) else r
  }

  /** Update_All_Time: one more hour for every slot, saturating at 25. */
  function Tick(r: Reg): (r1: Reg)
    requires Shape(r)
    ensures Shape(r1) && r1.num == r.num && r1.id == r.id
  {
    r.(idTime := seq(COLUMN, i requires 0 <= i < COLUMN =>
        if 1 <= i <= r.num && r.idTime[i] < 25 then r.idTime[i] + 1 else r.idTime[i]))
  }

  predicate Cleared(r: Reg, i: nat)
    requires Shape(r) && i < COLUMN
  {
    1 <= i <= r.num && (r.idTime[i] < 25 || r.got[i] == 1)
  }

  /** Clear_All_Time: a slot keeps 25 only if it was silent. */
  function ClearAll(r: Reg): (r1: Reg)
    requires Shape(r)
    ensures Shape(r1) && r1.num == r.num && r1.id == r.id
  {
    r.(got := seq(COLUMN, i requires 0 <= i < COLUMN => if Cleared(r, i) then 0 else r.got[i]),
       idTime := seq(COLUMN, i requires 0 <= i < COLUMN => if Cleared(r, i) then 0 else r.idTime[i]))
  }

  predicate Silent(r: Reg, k: nat)
    requires Shape(r) && k < COLUMN
  {
    r.idTime[k] == 25 && r.got[k] == 0 && r.id[k] != 0
  }

  /** The loop of Detect_All_Time over slots n .. 1: the table, the ids reported offline, and whether
      an ordinary device was among them. */
  function Sweep(r: Reg, n: nat): (x: (Reg, seq<nat>, bool))
    requires Shape(r) && n < MAX_SUPPORT
    ensures Shape(x.0) && x.0.num == r.num && x.0.id == r.id
    decreases n
  {
    if n == 0 then (r, [], false)
    else if Silent(r, n) && (n == r.doorNum || n != r.gatewayNum) then
      var (r1, ids, warn) := Sweep(SetAlive(r, r.id[n], 0), n - 1);
      (r1, [r.id[n]] + ids, warn || n != r.doorNum)
    else Sweep(r, n - 1)
  }

  /** LoadDevice2Memory */
  function Load(f: Flash): Reg {
    var n := Get(f, LearnNums);
    var ids := seq(COLUMN, i requires 0 <= i < COLUMN => if 1 <= i <= n then Get(f, Num(i)) else 0);
    Reg(n, Get(f, DOOR), Get(f, GATEWAY), ids,
        seq(COLUMN, i requires 0 <= i < COLUMN => if ids[i] != 0 then Get(f, Alive(ids[i])) else 0),
        seq(COLUMN, i requires 0 <= i < COLUMN => if ids[i] != 0 then Get(f, SlaveAlarm(ids[i])) else 0),
        Zeros(), Zeros(), f)
  }

  /** One learning request (Device_Learn, data 1) from an id that is not registered. */
  function Learn(r: Reg, from: int): (Reg, bool)
    requires Shape(r)
  {
    var d := ToU32(from);
    if from < 30000000 then AddDevice(r, d)
    else if from < 40000000 then AddDoor(r, d)
    else if from < 50000000 then AddGateway(r, d)
    else (r, true)
  }

  /** A C long used as an unsigned id. */
  function ToU32(x: int): nat { x % 0x1_0000_0000 }
}

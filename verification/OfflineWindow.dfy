/** The 25-hour liveness protocol: applications/RTCWork.c with Update_All_Time, Detect_All_Time,
    Clear_All_Time and Device_AliveChange of storage/flashwork.c. */
module OfflineWindow {
  import opened RegistryModel
  import opened RegistryInv
  import opened ValveModel
  import opened ValveInv
  import opened ControllerModel
  import opened ControllerInv

  /** Hour counts saturate at 25 and message flags are 0 or 1. */
  ghost predicate Tidy(r: Reg) {
    && |r.idTime| == |r.got| == COLUMN
    && forall i | 0 <= i < COLUMN :: r.idTime[i] <= 25 && r.got[i] <= 1
  }

  /** Slot k holds device d, `heard` tells whether a message of d was processed since the last pass, and
      a silent device has counted every hour of the window. */
  ghost predicate Tracking(s: State, k: nat, d: nat, heard: bool) {
    && Safe(s) && Tidy(s.r) && 1 <= k <= s.r.num && s.r.id[k] == d != 0
    && (s.r.got[k] == 1 <==> heard)
    && (!heard ==> s.r.idTime[k] >= s.rtcCounter)
  }

  predicate Hears(e: Event, d: nat) { e.NormalMessage? && ToU32(e.from) == d }

  /** Detect_All_Time reports a slot unless it is the gateway's. */
  predicate Reportable(r: Reg, k: nat) { k == r.doorNum || k != r.gatewayNum }

  /* ---- The pass ---- */

  lemma SetAliveLocal(r: Reg, k: nat, v: nat)
    requires TableOk(r) && 1 <= k <= r.num && r.id[k] != 0
    ensures var r1 := SetAlive(r, r.id[k], v);
      && TableOk(r1) && SameSlots(r, r1) && r1.idTime == r.idTime
      && r1.got == r.got[k := v]
  {
    SlotOf(r, r.id[k], k);
    SetAliveInv(r, r.id[k], v);
    var r1 := SetAlive(r, r.id[k], v);
    assert r1.got == r.got[k := v];
  }

  /** Slot k makes the pass report device d. */
  predicate Reports(r: Reg, k: nat, d: nat)
    requires Shape(r) && k < COLUMN
  {
    r.id[k] == d && Silent(r, k) && Reportable(r, k)
  }

  lemma SetAliveBelow(r: Reg, n: nat, k: nat, d: nat)
    requires TableOk(r) && 1 <= k < n <= r.num && r.id[n] != 0
    ensures Reports(SetAlive(r, r.id[n], 0), k, d) == Reports(r, k, d)
  {
    SetAliveLocal(r, n, 0);
  }

  ghost predicate Among(r: Reg, n: nat, d: nat)
    requires Shape(r) && n < COLUMN
  {
    exists k :: 1 <= k <= n && Reports(r, k, d)
  }

  lemma AmongStep(r: Reg, n: nat, d: nat)
    requires Shape(r) && 1 <= n < COLUMN
    ensures Among(r, n, d) <==> Reports(r, n, d) || Among(r, n - 1, d)
  {}

  lemma AmongBelow(r: Reg, n: nat, d: nat)
    requires TableOk(r) && 1 <= n <= r.num && r.id[n] != 0
    ensures Among(SetAlive(r, r.id[n], 0), n - 1, d) <==> Among(r, n - 1, d)
  {
    forall k | 1 <= k < n
      ensures Reports(SetAlive(r, r.id[n], 0), k, d) == Reports(r, k, d)
    {
      SetAliveBelow(r, n, k, d);
    }
  }

  lemma SweepStep(r: Reg, n: nat, d: nat)
    requires TableOk(r) && 1 <= n <= r.num && Silent(r, n) && Reportable(r, n)
    ensures d in Sweep(r, n).1 <==> d == r.id[n] || d in Sweep(SetAlive(r, r.id[n], 0), n - 1).1
    ensures Reports(r, n, d) <==> d == r.id[n]
  {
    assert Sweep(r, n).1 == [r.id[n]] + Sweep(SetAlive(r, r.id[n], 0), n - 1).1;
  }

  lemma SweepSkip(r: Reg, n: nat, d: nat)
    requires Shape(r) && 1 <= n <= r.num && !(Silent(r, n) && Reportable(r, n))
    ensures Sweep(r, n) == Sweep(r, n - 1) && !Reports(r, n, d)
  {}

  /** The pass reports exactly the silent, reportable devices of the table. */
  lemma {:induction false} SweepReports(r: Reg, n: nat, d: nat)
    requires TableOk(r) && n <= r.num
    ensures d in Sweep(r, n).1 <==> Among(r, n, d)
    decreases n
  {
    if n > 0 {
      AmongStep(r, n, d);
      if Silent(r, n) && Reportable(r, n) {
        var r1 := SetAlive(r, r.id[n], 0);
        SetAliveLocal(r, n, 0);
        AmongBelow(r, n, d);
        SweepReports(r1, n - 1, d);
        SweepStep(r, n, d);
      } else {
        SweepReports(r, n - 1, d);
        SweepSkip(r, n, d);
      }
    }
  }

  /** An ordinary device, neither door nor gateway, that was silent for 25 hours. */
  predicate OrdinaryLost(r: Reg, k: nat)
    requires Shape(r) && k < COLUMN
  {
    k != r.doorNum && k != r.gatewayNum && r.id[k] != 0 && r.idTime[k] == 25 && r.got[k] == 0
  }

  ghost predicate AnyLost(r: Reg, n: nat)
    requires Shape(r) && n < COLUMN
  {
    exists k :: 1 <= k <= n && OrdinaryLost(r, k)
  }

  lemma AnyLostStep(r: Reg, n: nat)
    requires Shape(r) && 1 <= n < COLUMN
    ensures AnyLost(r, n) <==> OrdinaryLost(r, n) || AnyLost(r, n - 1)
  {}

  lemma AnyLostBelow(r: Reg, n: nat)
    requires TableOk(r) && 1 <= n <= r.num && r.id[n] != 0
    ensures AnyLost(SetAlive(r, r.id[n], 0), n - 1) <==> AnyLost(r, n - 1)
  {
    SetAliveLocal(r, n, 0);
    var r1 := SetAlive(r, r.id[n], 0);
    assert forall k | 1 <= k < n :: OrdinaryLost(r1, k) == OrdinaryLost(r, k);
  }

  lemma WarnStep(r: Reg, n: nat)
    requires Shape(r) && 1 <= n <= r.num && Silent(r, n) && Reportable(r, n)
    ensures Sweep(r, n).2 <==> OrdinaryLost(r, n) || Sweep(SetAlive(r, r.id[n], 0), n - 1).2
  {}

  lemma WarnSkip(r: Reg, n: nat)
    requires Shape(r) && 1 <= n <= r.num && !(Silent(r, n) && Reportable(r, n))
    ensures Sweep(r, n) == Sweep(r, n - 1) && !OrdinaryLost(r, n)
  {}

  /** The pass raises the offline warning iff an ordinary device is among those it reports. */
  lemma {:induction false} SweepWarns(r: Reg, n: nat)
    requires TableOk(r) && n <= r.num
    ensures Sweep(r, n).2 <==> AnyLost(r, n)
    decreases n
  {
    if n > 0 {
      AnyLostStep(r, n);
      if Silent(r, n) && Reportable(r, n) {
        var r1 := SetAlive(r, r.id[n], 0);
        SetAliveLocal(r, n, 0);
        AnyLostBelow(r, n);
        SweepWarns(r1, n - 1);
        WarnStep(r, n);
      } else {
        SweepWarns(r, n - 1);
        WarnSkip(r, n);
      }
    }
  }

  lemma MarkStep(r: Reg, n: nat)
    requires TableOk(r) && 1 <= n <= r.num && Silent(r, n) && Reportable(r, n)
    ensures Sweep(r, n).0 == Sweep(SetAlive(r, r.id[n], 0), n - 1).0
    ensures SetAlive(r, r.id[n], 0).alive == r.alive[n := 0]
  {
    SlotOf(r, r.id[n], n);
    assert r.alive[n] == 0 ==> r.alive[n := 0] == r.alive;
  }

  lemma ReportedBelow(r: Reg, n: nat, k: nat)
    requires TableOk(r) && 1 <= n <= r.num && r.id[n] != 0 && k < COLUMN
    ensures 1 <= k < n ==> Reports(SetAlive(r, r.id[n], 0), k, r.id[k]) == Reports(r, k, r.id[k])
    ensures TableOk(SetAlive(r, r.id[n], 0)) && SetAlive(r, r.id[n], 0).id == r.id
  {
    SetAliveLocal(r, n, 0);
    if 1 <= k < n {
      SetAliveBelow(r, n, k, r.id[k]);
    }
  }

  /** It marks exactly the reported slots as dead. */
  lemma {:induction false} SweepMarks(r: Reg, n: nat, k: nat)
    requires TableOk(r) && n <= r.num && k < COLUMN
    ensures Sweep(r, n).0.alive[k] == if 1 <= k <= n && Reports(r, k, r.id[k]) then 0 else r.alive[k]
    decreases n
  {
    if n > 0 {
      if Silent(r, n) && Reportable(r, n) {
        var r1 := SetAlive(r, r.id[n], 0);
        ReportedBelow(r, n, k);
        MarkStep(r, n);
        SweepMarks(r1, n - 1, k);
      } else {
        SweepMarks(r, n - 1, k);
        WarnSkip(r, n);
      }
    }
  }

  lemma {:induction false} SweepTidy(r: Reg, n: nat)
    requires TableOk(r) && Tidy(r) && n <= r.num
    ensures Tidy(Sweep(r, n).0)
    decreases n
  {
    if n > 0 {
      if Silent(r, n) && Reportable(r, n) {
        SetAliveLocal(r, n, 0);
        SweepTidy(SetAlive(r, r.id[n], 0), n - 1);
      } else {
        SweepTidy(r, n - 1);
      }
    }
  }

  lemma TickTidy(r: Reg)
    requires Shape(r) && Tidy(r)
    ensures Tidy(Tick(r))
  {}

  /** `ids` are the silent devices outside the gateway slot, no others. */
  ghost predicate ReportsExactly(r: Reg, ids: seq<nat>)
    requires Shape(r)
  {
    forall d :: d in ids <==> Among(r, r.num, d)
  }

  lemma PassIsExact(r: Reg)
    requires TableOk(r)
    ensures ReportsExactly(r, Sweep(r, r.num).1)
  {
    forall d
      ensures d in Sweep(r, r.num).1 <==> Among(r, r.num, d)
    {
      SweepReports(r, r.num, d);
    }
  }

  /** After a pass every registered slot starts a fresh window. */
  lemma PassStarts(s: State, a: bool, b: bool, k: nat)
    requires Safe(s) && Tidy(s.r) && s.rtcCounter == 24 && 1 <= k <= s.r.num && s.r.id[k] != 0
    ensures Tracking(Hour(s, a, b).0, k, s.r.id[k], false)
  {
    StepSafe(s, HourPassed(a, b));
    HourTable(s, a, b);
    TickSame(s.r);
    TickTidy(s.r);
    var r := Tick(s.r);
    SweepTidy(r, r.num);
    SweepInv(r, r.num);
  }

  /** After a reset, too. */
  lemma ResetStarts(s: State, factory: bool, k: nat)
    requires Safe(s) && 1 <= k <= s.r.num && s.r.id[k] != 0
    ensures Tracking(Reboot(s, factory), k, s.r.id[k], false)
  {
    StepSafe(s, Reset(factory));
    ReloadReproduces(s.r);
  }

  /* ---- Between two passes ---- */

  /** The columns that matter for slot k are untouched. */
  ghost predicate SlotSame(r: Reg, r1: Reg, k: nat) {
    && |r.got| == |r1.got| == |r.idTime| == |r1.idTime| == COLUMN && k < COLUMN
    && r1.got[k] == r.got[k] && r1.idTime[k] == r.idTime[k]
  }

  lemma SetAliveOther(r: Reg, k: nat, d: nat, v: nat)
    requires TableOk(r) && Tidy(r) && 1 <= k <= r.num && r.id[k] != d && v <= 1
    ensures SlotSame(r, SetAlive(r, d, v), k) && Tidy(SetAlive(r, d, v))
  {}

  lemma SetAliveTidy(r: Reg, d: nat, v: nat)
    requires Shape(r) && Tidy(r) && v <= 1
    ensures Tidy(SetAlive(r, d, v))
  {}

  /** Adding devices leaves hour counts and message flags alone. */
  lemma AddColumns(r: Reg, d: nat)
    requires Shape(r)
    ensures AddDevice(r, d).0.got == r.got && AddDevice(r, d).0.idTime == r.idTime
    ensures AddDoor(r, d).0.got == r.got && AddDoor(r, d).0.idTime == r.idTime
    ensures AddGateway(r, d).0.got == r.got && AddGateway(r, d).0.idTime == r.idTime
  {}

  lemma LearnColumns(r: Reg, from: int)
    requires Shape(r)
    ensures RegistryModel.Learn(r, from).0.got == r.got && RegistryModel.Learn(r, from).0.idTime == r.idTime
  {
    AddColumns(r, ToU32(from));
  }

  /** A message of device d sets the flag of its slot. */
  lemma HeardStep(s: State, k: nat, from: int, command: int, data: int)
    requires Safe(s) && Tidy(s.r) && 1 <= k <= s.r.num && s.r.id[k] == ToU32(from) != 0
    ensures NormalSolve(s, from, command, data).r.got[k] == 1 && Tidy(NormalSolve(s, from, command, data).r)
  {
    var d := ToU32(from);
    SetAliveLocal(s.r, k, 1);
    var r1 := SetAlive(s.r, d, 1);
    SlotOf(s.r, d, k);
    SlotOf(r1, d, k);
    if s.v.learning {
      SetAliveLocal(r1, k, 1);
    } else {
      CommandColumns(r1, d, command, data);
    }
  }

  lemma CommandColumns(r: Reg, d: nat, command: int, data: int)
    requires Shape(r)
    ensures var r1 := CommandTable(r, d, command, data);
      r1.got == r.got && r1.idTime == r.idTime && r1.id == r.id && r1.num == r.num
  {}

  /** A message of another device leaves the slot alone. */
  lemma UnheardStep(s: State, k: nat, from: int, command: int, data: int)
    requires Safe(s) && Tidy(s.r) && 1 <= k <= s.r.num && s.r.id[k] != ToU32(from) && s.r.id[k] != 0 && IsLong(from)
    ensures SlotSame(s.r, NormalSolve(s, from, command, data).r, k) && Tidy(NormalSolve(s, from, command, data).r)
  {
    var d := ToU32(from);
    SetAliveOther(s.r, k, d, 1);
    SetAliveInv(s.r, d, 1);
    var r1 := SetAlive(s.r, d, 1);
    SameSlotsStep(s.r, r1);
    if s.v.learning {
      LearnColumns(r1, from);
      SetAliveOther(r1, k, d, 1);
    } else {
      CommandColumns(r1, d, command, data);
    }
  }

  lemma DeleteColumns(r: Reg, d: nat)
    requires Shape(r)
    ensures Delete(r, d).got == r.got && Delete(r, d).idTime == r.idTime
  {}

  /** The next event is neither the pass nor a reset, and leaves d in slot k. */
  ghost predicate Within(s: State, e: Event, k: nat, d: nat)
    requires Shape(s.r)
  {
    && !(e.HourPassed? && s.rtcCounter == 24) && !e.Reset? && !e.BothKeysHeld?
    && var r1 := Step(s, e).r; k < |r1.id| && 1 <= k <= r1.num && r1.id[k] == d
  }

  lemma TrackStep(s: State, e: Event, k: nat, d: nat, heard: bool)
    requires Tracking(s, k, d, heard) && Possible(s, e) && Within(s, e, k, d)
    ensures Tracking(Step(s, e), k, d, heard || Hears(e, d))
  {
    StepSafe(s, e);
    if e.NormalMessage? {
      if ToU32(e.from) == d {
        HeardStep(s, k, e.from, e.command, e.data);
      } else {
        UnheardStep(s, k, e.from, e.command, e.data);
        assert NormalSolve(s, e.from, e.command, e.data).rtcCounter == s.rtcCounter;
      }
    } else if e.HourPassed? {
      TickTidy(s.r);
    } else if e.GatewayMessage? {
      DeleteColumns(s.r, ToU32(e.device));
    } else {
      assert Step(s, e).r == s.r && Step(s, e).rtcCounter == s.rtcCounter;
    }
  }

  ghost predicate Stays(s: State, es: seq<Event>, k: nat, d: nat)
    decreases |es|
  {
    es == [] || (Shape(s.r) && Within(s, es[0], k, d) && Stays(Step(s, es[0]), es[1..], k, d))
  }

  lemma {:induction false} TrackRun(s: State, es: seq<Event>, s': State, k: nat, d: nat, heard: bool)
    requires Tracking(s, k, d, heard) && Reaches(s, es, s') && Stays(s, es, k, d)
    ensures Tracking(s', k, d, heard || exists i :: 0 <= i < |es| && Hears(es[i], d))
    decreases |es|
  {
    if es != [] {
      TrackStep(s, es[0], k, d, heard);
      var rest := es[1..];
      TrackRun(Step(s, es[0]), rest, s', k, d, heard || Hears(es[0], d));
      if i :| 0 <= i < |rest| && Hears(rest[i], d) { assert es[i + 1] == rest[i]; }
      if i :| 0 <= i < |es| && Hears(es[i], d) { assert i == 0 || rest[i - 1] == es[i]; }
    }
  }

  /** The pass at the end of a window reports d exactly when no message of d was heard. */
  lemma PassReports(s: State, a: bool, b: bool, k: nat, d: nat, heard: bool)
    requires Tracking(s, k, d, heard) && s.rtcCounter == 24 && Reportable(s.r, k)
    ensures d in Hour(s, a, b).1 <==> !heard
  {
    TickSame(s.r);
    SameSlotsStep(s.r, Tick(s.r));
    var r := Tick(s.r);
    SweepReports(r, r.num, d);
    assert Reports(r, k, d) <==> !heard;
    assert forall j | 1 <= j <= r.num && Reports(r, j, d) :: j == k;
  }

  /** Offline detection is exact: for a device that keeps its (non-gateway) slot from one pass to the
      next, 25 hours later, the pass reports it offline if and only if none of the events in between was
      a message from it. */
  lemma OfflineExact(s: State, es: seq<Event>, s': State, a: bool, b: bool, k: nat, d: nat)
    requires Tracking(s, k, d, false) && s.rtcCounter == 0
    requires Reaches(s, es, s') && Stays(s, es, k, d) && s'.rtcCounter == 24 && Reportable(s'.r, k)
    ensures Shape(s'.r)
    ensures d in Hour(s', a, b).1 <==> forall i | 0 <= i < |es| :: !Hears(es[i], d)
  {
    TrackRun(s, es, s', k, d, false);
    PassReports(s', a, b, k, d, exists i :: 0 <= i < |es| && Hears(es[i], d));
  }

  lemma StepTidy(s: State, e: Event)
    requires Safe(s) && Tidy(s.r) && Possible(s, e)
    ensures Tidy(Step(s, e).r)
  {
    if e.NormalMessage? {
      NormalTidy(s, e.from, e.command, e.data);
    } else if e.HourPassed? {
      TickTidy(s.r);
      TickSame(s.r);
      SameSlotsStep(s.r, Tick(s.r));
      SweepTidy(Tick(s.r), s.r.num);
    } else if e.GatewayMessage? {
      DeleteColumns(s.r, ToU32(e.device));
    } else if e.Reset? {
      assert Step(s, e).r == Load(s.r.flash);
    } else if e.BothKeysHeld? {
      assert Step(s, e).r == Blank();
    } else {
      assert Step(s, e).r == s.r;
    }
  }

  lemma NormalTidy(s: State, from: int, command: int, data: int)
    requires Safe(s) && Tidy(s.r)
    ensures Tidy(NormalSolve(s, from, command, data).r)
  {
    var d := ToU32(from);
    SetAliveTidy(s.r, d, 1);
    var r1 := SetAlive(s.r, d, 1);
    if s.v.learning {
      LearnColumns(r1, from);
      SetAliveTidy(r1, d, 1);
    } else {
      CommandColumns(r1, d, command, data);
    }
  }

  /** From the factory state on, every pass and every reset starts windows for all registered devices. */
  lemma {:induction false} RunTidy(s: State, es: seq<Event>, s': State)
    requires Safe(s) && Tidy(s.r) && Reaches(s, es, s')
    ensures Safe(s') && Tidy(s'.r)
    decreases |es|
  {
    if es != [] {
      StepSafe(s, es[0]);
      StepTidy(s, es[0]);
      RunTidy(Step(s, es[0]), es[1..], s');
    }
  }
}

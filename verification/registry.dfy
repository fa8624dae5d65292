/**
 * The controller registry (`MotorControllerSystem`): an append-only list of
 * controllers and the 1-based logical motor numbering over it, motors 2c+1
 * and 2c+2 belonging to controller c.
 */
module Registry {
  import opened Wrappers
  import opened MotorState
  import opened Link
  import opened Codec

  datatype System = System(controllers: seq<Controller>, running: bool)

  /** A system as constructed: no controllers, run flag on. */
  const Initial := System([], true)

  /** Exceptions that escape a lookup (Python `IndexError`, or `AttributeError` on a None controller). */
  datatype Fault = IndexError | AttributeError

  /** Where a logical motor number leads. */
  datatype Location = Found(ctrl: nat, slot: nat) | Absent | OutOfRange

  /** The logical number of slot `s` of controller `c`. */
  function MotorNumber(c: nat, s: nat): int {
    2 * c + s + 1
  }

  /**
   * The lookup shared by `getMotor` and `getMotorController` on `n`
   * controllers. Numbers 1..2n resolve in registration order; numbers above
   * 2n, or any number with no controllers, resolve to None. Numbers at or
   * below 0 go through Python's negative list indexing: they reach the motor
   * numbered idx + 2n, or raise `IndexError` below 1 - 2n.
   */
  function Locate(n: nat, idx: int): (r: Location)
    ensures r.Found? ==> r.ctrl < n && r.slot < 2
    ensures 1 <= idx <= 2 * n ==> r.Found? && MotorNumber(r.ctrl, r.slot) == idx
    ensures n == 0 || idx > 2 * n ==> r == Absent
    ensures n > 0 && 1 - 2 * n <= idx <= 0 ==> r.Found? && MotorNumber(r.ctrl, r.slot) == idx + 2 * n
    ensures n > 0 && idx < 1 - 2 * n ==> r == OutOfRange
  {
    if n > 0 then
      if idx <= 2 * n then
        // Dafny's / and % agree with Python's // and % for a positive divisor
        var t := (idx - 1) / 2;
        var s := (idx - 1) % 2;
        if t >= 0 then Found(t, s)
        else if n + t >= 0 then Found(n + t, s)
        else OutOfRange
      else Absent
    else Absent
  }

  /** Every (controller, slot) pair has exactly one number in 1..2n, and it leads back to the pair. */
  lemma LocateBijective(n: nat, c: nat, s: nat)
    requires c < n && s < 2
    ensures 1 <= MotorNumber(c, s) <= 2 * n
    ensures Locate(n, MotorNumber(c, s)) == Found(c, s)
  {
  }

  /** Registering more controllers never changes where numbers 1..2n lead. */
  lemma LocateStable(n: nat, more: nat, idx: int)
    requires 1 <= idx <= 2 * n
    ensures Locate(n + more, idx) == Locate(n, idx)
  {
  }

  /** Python's negative indexing: number 0 is the last controller's second motor. */
  lemma ZeroIsLastMotor(n: nat)
    requires n > 0
    ensures Locate(n, 0) == Found(n - 1, 1)
  {
  }

  /** The motor at slot s of controller c. */
  function MotorAt(sys: System, c: nat, s: nat): Motor
    requires c < |sys.controllers| && s < 2
  {
    sys.controllers[c].Slot(s)
  }

  /** Same controllers (port, baud, run flag) and the same motors except possibly at (c, s). */
  ghost predicate OnlyMotorChanged(a: System, b: System, c: nat, s: nat) {
    && |b.controllers| == |a.controllers|
    && b.running == a.running
    && (forall i :: 0 <= i < |a.controllers| ==>
          && b.controllers[i].com == a.controllers[i].com
          && b.controllers[i].baud == a.controllers[i].baud
          && b.controllers[i].running == a.controllers[i].running)
    && (forall i, t :: 0 <= i < |a.controllers| && 0 <= t < 2 && (i, t) != (c, s) ==>
          b.controllers[i].Slot(t) == a.controllers[i].Slot(t))
  }

  /** Replaces the motor at slot s of controller c. */
  function WithMotor(sys: System, c: nat, s: nat, m: Motor): (r: System)
    requires c < |sys.controllers| && s < 2
    ensures OnlyMotorChanged(sys, r, c, s)
    ensures MotorAt(r, c, s) == m
  {
    sys.(controllers := sys.controllers[c := sys.controllers[c].WithSlot(s, m)])
  }

  /** `getMotor`. */
  function GetMotor(sys: System, idx: int): (r: Result<Option<Motor>, Fault>)
    ensures 1 <= idx <= 2 * |sys.controllers| ==>
              r == Ok(Some(sys.controllers[(idx - 1) / 2].Slot((idx - 1) % 2)))
    ensures |sys.controllers| == 0 || idx > 2 * |sys.controllers| ==> r == Ok(None)
    ensures r.Err? <==> Locate(|sys.controllers|, idx).OutOfRange?
  {
    match Locate(|sys.controllers|, idx)
    case Found(c, s) => Ok(Some(MotorAt(sys, c, s)))
    case Absent => Ok(None)
    case OutOfRange => Err(IndexError)
  }

  /** `getMotorController`. */
  function GetMotorController(sys: System, idx: int): (r: Result<Option<Controller>, Fault>)
    ensures 1 <= idx <= 2 * |sys.controllers| ==> r == Ok(Some(sys.controllers[(idx - 1) / 2]))
    ensures |sys.controllers| == 0 || idx > 2 * |sys.controllers| ==> r == Ok(None)
    ensures GetMotor(sys, idx).Ok? <==> r.Ok?
    ensures r.Ok? ==> (r.value.Some? <==> GetMotor(sys, idx).value.Some?)
  {
    match Locate(|sys.controllers|, idx)
    case Found(c, s) => Ok(Some(sys.controllers[c]))
    case Absent => Ok(None)
    case OutOfRange => Err(IndexError)
  }

  /**
   * `updateMotor`: a partial update of the addressed motor that raises its
   * flag; an unknown number changes nothing.
   */
  function UpdateMotor(sys: System, idx: int, patch: Patch): (r: Result<System, Fault>)
    ensures 1 <= idx <= 2 * |sys.controllers| ==>
              var c, s := (idx - 1) / 2, (idx - 1) % 2;
              && r.Ok?
              && OnlyMotorChanged(sys, r.value, c, s)
              && MotorAt(r.value, c, s) == UpdateParams(MotorAt(sys, c, s), patch)
    ensures |sys.controllers| == 0 || idx > 2 * |sys.controllers| ==> r == Ok(sys)
    ensures r.Err? <==> GetMotor(sys, idx).Err?
    ensures Locate(|sys.controllers|, idx).Found? ==>
              var loc := Locate(|sys.controllers|, idx);
              && r.Ok?
              && OnlyMotorChanged(sys, r.value, loc.ctrl, loc.slot)
              && MotorAt(r.value, loc.ctrl, loc.slot) == UpdateParams(MotorAt(sys, loc.ctrl, loc.slot), patch)
  {
    match Locate(|sys.controllers|, idx)
    case Found(c, s) => Ok(WithMotor(sys, c, s, UpdateParams(MotorAt(sys, c, s), patch)))
    case Absent => Ok(sys)
    case OutOfRange => Err(IndexError)
  }

  /** After an update, the addressed number reads back the updated motor and every other number reads as before. */
  lemma UpdateMotorReadBack(sys: System, idx: int, patch: Patch, other: int)
    requires 1 <= idx <= 2 * |sys.controllers| && 1 <= other <= 2 * |sys.controllers|
    ensures var r := UpdateMotor(sys, idx, patch);
            && r.Ok?
            && GetMotor(r.value, idx) == Ok(Some(UpdateParams(GetMotor(sys, idx).value.value, patch)))
            && (other != idx ==> GetMotor(r.value, other) == GetMotor(sys, other))
  {
  }

  /**
   * `addController`: a port missing from the enumerated devices registers
   * nothing; otherwise one started controller with two fresh motors is
   * appended. There is no check against ports already registered.
   */
  function AddController(sys: System, available: set<string>, com: string, baud: nat): (r: System)
    ensures com !in available ==> r == sys
    ensures com in available ==>
              && |r.controllers| == |sys.controllers| + 1
              && r.controllers[..|sys.controllers|] == sys.controllers
              && r.controllers[|sys.controllers|] == NewController(com, baud)
    ensures r.running == sys.running
  {
    if com !in available then sys
    else sys.(controllers := sys.controllers + [NewController(com, baud)])
  }

  /** Adding a controller keeps every existing number's motor and gives the new one numbers 2n+1 and 2n+2. */
  lemma AddKeepsNumbering(sys: System, available: set<string>, com: string, baud: nat, idx: int)
    requires com in available
    requires 1 <= idx <= 2 * |sys.controllers| + 2
    ensures var r := AddController(sys, available, com, baud);
            GetMotor(r, idx) == if idx <= 2 * |sys.controllers| then GetMotor(sys, idx) else Ok(Some(Fresh))
  {
  }

  /** `getAllParams`: number i maps to the parameter list of the motor numbered i. */
  method GetAllParams(sys: System) returns (all: map<int, seq<real>>)
    ensures forall i :: i in all <==> 1 <= i <= 2 * |sys.controllers|
    ensures forall i :: 1 <= i <= 2 * |sys.controllers| ==>
              all[i] == GetParams(sys.controllers[(i - 1) / 2].Slot((i - 1) % 2))
  {
    all := map[];
    var i := 1;
    while i <= 2 * |sys.controllers|
      invariant 1 <= i <= 2 * |sys.controllers| + 1
      invariant forall j :: j in all <==> 1 <= j < i
      invariant forall j :: 1 <= j < i ==> all[j] == GetParams(sys.controllers[(j - 1) / 2].Slot((j - 1) % 2))
    {
      var motor := GetMotor(sys, i);
      all := all[i := GetParams(motor.value.value)];
      i := i + 1;
    }
  }

  /** `getAllValues`: number i maps to the six telemetry values of the motor numbered i. */
  method GetAllValues(sys: System) returns (all: map<int, seq<real>>)
    ensures forall i :: i in all <==> 1 <= i <= 2 * |sys.controllers|
    ensures forall i :: 1 <= i <= 2 * |sys.controllers| ==>
              all[i] == GetValues(sys.controllers[(i - 1) / 2].Slot((i - 1) % 2))
    ensures forall i :: i in all ==> |all[i]| == 6
  {
    all := map[];
    var i := 1;
    while i <= 2 * |sys.controllers|
      invariant 1 <= i <= 2 * |sys.controllers| + 1
      invariant forall j :: j in all <==> 1 <= j < i
      invariant forall j :: 1 <= j < i ==> all[j] == GetValues(sys.controllers[(j - 1) / 2].Slot((j - 1) % 2))
    {
      var motor := GetMotor(sys, i);
      all := all[i := GetValues(motor.value.value)];
      i := i + 1;
    }
  }

  /** The run-flag part of `stopAll`: every run flag drops, nothing else changes. */
  function StopAll(sys: System): (r: System)
    ensures !r.running
    ensures |r.controllers| == |sys.controllers|
    ensures forall i :: 0 <= i < |sys.controllers| ==>
              r.controllers[i] == sys.controllers[i].(running := false)
  {
    System(seq(|sys.controllers|, i requires 0 <= i < |sys.controllers| => sys.controllers[i].(running := false)), false)
  }

  /**
   * Register "P1", set motor 1's setpoint to 120 through `updateMotor`, run
   * one loop pass: the flag is down again and the frame written first carries
   * slot number 1, setpoint 120 and the zero gains.
   */
  lemma SetpointPushedOnNextPass(fmt: FloatFormat, available: set<string>, reply: seq<Byte>)
    requires Wellformed(fmt) && "P1" in available
    ensures var sys := AddController(Initial, available, "P1", DefaultBaud);
            var updated := UpdateMotor(sys, 1, Patch(Some(120.0), None, None, None));
            && updated.Ok?
            && MotorAt(updated.value, 0, 0).params == Params(120.0, 0.0, 0.0, 0.0)
            && MotorAt(updated.value, 0, 0).update
            && var pass := Iterate(fmt, updated.value.controllers[0], reply);
               && !pass.controller.m1.update
               && ParseRequest(pass.written[0])
                  == Some(Request(1, fmt.packSingle(120.0), fmt.packSingle(0.0), fmt.packSingle(0.0), fmt.packDouble(0.0)))
  {
  }
}

/**
 * `MotorControllerSystem.jsonConfig` on an already parsed configuration: for
 * each port, register a controller, then write the given fields of each
 * listed motor with `setParams` (so no flag is raised).
 */
module Config {
  import opened Wrappers
  import opened MotorState
  import opened Link
  import opened Registry

  /** A motor entry: its key (`int(idx)`) and the fields present among SetPoint, kp, ki, kd. */
  datatype MotorEntry = MotorEntry(key: int, fields: Patch)

  /** A port name and its motor entries, in file order. */
  datatype PortEntry = PortEntry(com: string, motors: seq<MotorEntry>)

  /** The four single-field `setParams` calls made for one entry. */
  function ApplyFields(m: Motor, p: Patch): (r: Motor)
    ensures r == SetParams(m, p)
  {
    SetFieldByField(m, p);
    var m1 := SetParams(m, Patch(p.setPoint, None, None, None));
    var m2 := SetParams(m1, Patch(None, p.kp, None, None));
    var m3 := SetParams(m2, Patch(None, None, p.ki, None));
    SetParams(m3, Patch(None, None, None, p.kd))
  }

  /** Port names of a system, in registration order. */
  function Coms(sys: System): (r: seq<string>)
    ensures |r| == |sys.controllers|
    ensures forall i :: 0 <= i < |r| ==> r[i] == sys.controllers[i].com
  {
    seq(|sys.controllers|, i requires 0 <= i < |sys.controllers| => sys.controllers[i].com)
  }

  /** The ports of `config` that are present among the available devices, in order. */
  function AvailablePorts(config: seq<PortEntry>, available: set<string>): seq<string> {
    if |config| == 0 then []
    else (if config[0].com in available then [config[0].com] else []) + AvailablePorts(config[1..], available)
  }

  /** Flags of existing motors are as they were, and every newly registered motor's flag is down. */
  ghost predicate FlagsKept(a: System, b: System) {
    && |a.controllers| <= |b.controllers|
    && (forall i, s :: 0 <= i < |a.controllers| && 0 <= s < 2 ==>
          b.controllers[i].Slot(s).update == a.controllers[i].Slot(s).update)
    && (forall i, s :: |a.controllers| <= i < |b.controllers| && 0 <= s < 2 ==>
          !b.controllers[i].Slot(s).update)
  }

  lemma FlagsKeptTransitive(a: System, b: System, c: System)
    requires FlagsKept(a, b) && FlagsKept(b, c)
    ensures FlagsKept(a, c)
  {
  }

  /**
   * Existing controllers keep their baud rate and run flag, and every newly
   * registered one runs at the default baud rate.
   */
  ghost predicate LinksKept(a: System, b: System) {
    && |a.controllers| <= |b.controllers|
    && (forall i :: 0 <= i < |a.controllers| ==>
          b.controllers[i].baud == a.controllers[i].baud && b.controllers[i].running == a.controllers[i].running)
    && (forall i :: |a.controllers| <= i < |b.controllers| ==>
          b.controllers[i].baud == DefaultBaud && b.controllers[i].running)
  }

  lemma LinksKeptTransitive(a: System, b: System, c: System)
    requires LinksKept(a, b) && LinksKept(b, c)
    ensures LinksKept(a, c)
  {
  }

  /** Registering a port keeps every flag and link and starts the new controller at the default baud rate. */
  lemma RegisteringKeeps(sys: System, available: set<string>, com: string)
    ensures var added := AddController(sys, available, com, DefaultBaud);
            FlagsKept(sys, added) && LinksKept(sys, added)
  {
  }


  /**
   * The motor entries of one port. Each key is resolved as a logical number
   * over ALL controllers registered so far (not as a slot of this port's
   * controller); a key that leads nowhere is reported and skipped, and one
   * below the negative-index range raises.
   */
  function ApplyEntries(sys: System, entries: seq<MotorEntry>): (r: Result<System, Fault>)
    ensures r.Ok? ==> Coms(r.value) == Coms(sys) && FlagsKept(sys, r.value)
    ensures r.Ok? ==> |r.value.controllers| == |sys.controllers| && r.value.running == sys.running
    ensures r.Ok? ==> LinksKept(sys, r.value)
    ensures (forall k :: 0 <= k < |entries| ==> entries[k].key >= 1) ==> r.Ok?
    decreases |entries|
  {
    if |entries| == 0 then Ok(sys)
    else
      match Locate(|sys.controllers|, entries[0].key)
      case Found(c, s) =>
        var next := WithMotor(sys, c, s, ApplyFields(MotorAt(sys, c, s), entries[0].fields));
        ApplyEntries(next, entries[1..])
      case Absent => ApplyEntries(sys, entries[1..])
      case OutOfRange => Err(IndexError)
  }

  /** An entry whose key leads nowhere is skipped and loading goes on with the next. */
  lemma UnresolvedEntrySkipped(sys: System, e: MotorEntry, rest: seq<MotorEntry>)
    requires Locate(|sys.controllers|, e.key).Absent?
    ensures ApplyEntries(sys, [e] + rest) == ApplyEntries(sys, rest)
  {
  }

  /** An entry whose key resolves writes its fields, with `setParams`, to the motor the key names. */
  lemma ResolvedEntryApplied(sys: System, e: MotorEntry, rest: seq<MotorEntry>)
    requires Locate(|sys.controllers|, e.key).Found?
    ensures var loc := Locate(|sys.controllers|, e.key);
            ApplyEntries(sys, [e] + rest)
              == ApplyEntries(WithMotor(sys, loc.ctrl, loc.slot, SetParams(MotorAt(sys, loc.ctrl, loc.slot), e.fields)), rest)
  {
  }

  /**
   * Loading entries never changes a motor's telemetry, and a motor that no
   * entry's key resolves to is left exactly as it was.
   */
  lemma {:induction false} EntriesTouchOnlyNamedMotors(sys: System, entries: seq<MotorEntry>, i: nat, s: nat)
    requires ApplyEntries(sys, entries).Ok? && i < |sys.controllers| && s < 2
    ensures MotorAt(ApplyEntries(sys, entries).value, i, s).telemetry == MotorAt(sys, i, s).telemetry
    ensures (forall k :: 0 <= k < |entries| ==> Locate(|sys.controllers|, entries[k].key) != Found(i, s)) ==>
              MotorAt(ApplyEntries(sys, entries).value, i, s) == MotorAt(sys, i, s)
    decreases |entries|
  {
    if |entries| > 0 {
      var rest := entries[1..];
      assert forall k :: 0 <= k < |rest| ==> rest[k] == entries[k + 1];
      match Locate(|sys.controllers|, entries[0].key)
      case Found(c, t) =>
        var next := WithMotor(sys, c, t, ApplyFields(MotorAt(sys, c, t), entries[0].fields));
        EntriesTouchOnlyNamedMotors(next, rest, i, s);
      case Absent =>
        EntriesTouchOnlyNamedMotors(sys, rest, i, s);
    }
  }

  /** Registering a port appends its name to the port list exactly when it is available. */
  lemma ComsOfAdd(sys: System, available: set<string>, com: string)
    ensures Coms(AddController(sys, available, com, DefaultBaud))
              == Coms(sys) + (if com in available then [com] else [])
  {
    var added := AddController(sys, available, com, DefaultBaud);
    if com in available {
      assert Coms(added)[..|sys.controllers|] == Coms(sys);
    }
  }

  /** One step of the loader: the ports registered are the first port (if available) followed by the rest's. */
  lemma LoadStepComs(sys: System, available: set<string>, config: seq<PortEntry>, applied: System, r: System)
    requires |config| > 0
    requires Coms(applied) == Coms(AddController(sys, available, config[0].com, DefaultBaud))
    requires Coms(r) == Coms(applied) + AvailablePorts(config[1..], available)
    ensures Coms(r) == Coms(sys) + AvailablePorts(config, available)
  {
    ComsOfAdd(sys, available, config[0].com);
    var first := if config[0].com in available then [config[0].com] else [];
    assert AvailablePorts(config, available) == first + AvailablePorts(config[1..], available);
    assert (Coms(sys) + first) + AvailablePorts(config[1..], available)
        == Coms(sys) + (first + AvailablePorts(config[1..], available));
  }

  /** One step of the loader: registering, applying entries and loading the rest keeps every flag and link. */
  lemma LoadStepKeeps(sys: System, added: System, applied: System, r: System)
    requires FlagsKept(sys, added) && LinksKept(sys, added)
    requires FlagsKept(added, applied) && LinksKept(added, applied)
    requires FlagsKept(applied, r) && LinksKept(applied, r)
    ensures FlagsKept(sys, r) && LinksKept(sys, r)
  {
    FlagsKeptTransitive(sys, added, applied);
    FlagsKeptTransitive(sys, applied, r);
    LinksKeptTransitive(sys, added, applied);
    LinksKeptTransitive(sys, applied, r);
  }

  /**
   * `jsonConfig`, as written: the controllers registered are exactly the
   * available ports in file order, and no flag is raised.
   */
  function Load(sys: System, available: set<string>, config: seq<PortEntry>): (r: Result<System, Fault>)
    ensures r.Ok? ==> Coms(r.value) == Coms(sys) + AvailablePorts(config, available)
    ensures r.Ok? ==> FlagsKept(sys, r.value) && r.value.running == sys.running
    ensures r.Ok? ==> LinksKept(sys, r.value)
    decreases |config|
  {
    if |config| == 0 then Ok(sys)
    else
      var added := AddController(sys, available, config[0].com, DefaultBaud);
      var applied :- ApplyEntries(added, config[0].motors);
      var r := Load(applied, available, config[1..]);
      if r.Ok? then
        RegisteringKeeps(sys, available, config[0].com);
        LoadStepComs(sys, available, config, applied, r.value);
        LoadStepKeeps(sys, added, applied, r.value);
        r
      else r
  }

  /**
   * `jsonConfig` handles the first port before the rest: register it if
   * available, apply its entries to the system so far, then load the rest
   * from there; an entry that raises stops the whole load.
   */
  lemma LoadFirstPort(sys: System, available: set<string>, p: PortEntry, rest: seq<PortEntry>)
    ensures var entries := ApplyEntries(AddController(sys, available, p.com, DefaultBaud), p.motors);
            Load(sys, available, [p] + rest)
              == if entries.Ok? then Load(entries.value, available, rest) else Err(entries.error)
  {
  }

  /**
   * Loading `{"P1": {"1": {"kp": 2.0, "ki": 0.5}}}` into an empty system sets
   * kp and ki of motor 1, keeps setpoint and kd at zero, and leaves the flag down.
   */
  lemma LoadSinglePortExample(available: set<string>)
    requires "P1" in available
    ensures var r := Load(Initial, available, [PortEntry("P1", [MotorEntry(1, Patch(None, Some(2.0), Some(0.5), None))])]);
            && r.Ok?
            && GetMotor(r.value, 1) == Ok(Some(Motor(Params(0.0, 2.0, 0.5, 0.0), Fresh.telemetry, false)))
  {
  }

  /** The config loader as written reaches back into controllers registered for earlier ports. */
  lemma LoadResolvesKeysGlobally()
    ensures var config := [PortEntry("A", [MotorEntry(1, Patch(None, Some(1.0), None, None))]),
                           PortEntry("B", [MotorEntry(1, Patch(None, Some(2.0), None, None))])];
            var r := Load(Initial, {"A", "B"}, config);
            && r.Ok?
            && |r.value.controllers| == 2
            && r.value.controllers[0].m1.params.kp == 2.0
            && r.value.controllers[1].m1 == Fresh
  {
  }

  // ---------------------------------------------------------------------------
  // Per-port resolution: keys "1" and "2" name the slots of the port's own controller
  // ---------------------------------------------------------------------------

  /** The entries of one port applied to its own controller c; other keys are skipped. */
  function ApplyPortEntries(sys: System, c: nat, entries: seq<MotorEntry>): (r: System)
    requires c < |sys.controllers|
    ensures |r.controllers| == |sys.controllers| && r.running == sys.running
    ensures forall i :: 0 <= i < |sys.controllers| && i != c ==> r.controllers[i] == sys.controllers[i]
    ensures r.controllers[c].com == sys.controllers[c].com && r.controllers[c].baud == sys.controllers[c].baud
    ensures r.controllers[c].running == sys.controllers[c].running
    ensures r.controllers[c].m1.update == sys.controllers[c].m1.update
    ensures r.controllers[c].m2.update == sys.controllers[c].m2.update
    decreases |entries|
  {
    if |entries| == 0 then sys
    else
      var key := entries[0].key;
      if key == 1 || key == 2 then
        var next := WithMotor(sys, c, key - 1, ApplyFields(MotorAt(sys, c, key - 1), entries[0].fields));
        ApplyPortEntries(next, c, entries[1..])
      else ApplyPortEntries(sys, c, entries[1..])
  }

  /**
   * Corrected loader: registering a port and configuring its motors never
   * touches a controller registered before it, the registered ports are the
   * available ones in file order, and no flag is raised.
   */
  function LoadPerPort(sys: System, available: set<string>, config: seq<PortEntry>): (r: System)
    ensures |r.controllers| >= |sys.controllers|
    ensures r.controllers[..|sys.controllers|] == sys.controllers
    ensures Coms(r) == Coms(sys) + AvailablePorts(config, available)
    ensures FlagsKept(sys, r) && r.running == sys.running
    ensures LinksKept(sys, r)
    decreases |config|
  {
    if |config| == 0 then sys
    else if config[0].com !in available then LoadPerPort(sys, available, config[1..])
    else
      var n := |sys.controllers|;
      var added := AddController(sys, available, config[0].com, DefaultBaud);
      var applied := ApplyPortEntries(added, n, config[0].motors);
      assert applied.controllers[..n] == sys.controllers;
      assert Coms(applied) == Coms(sys) + [config[0].com];
      assert FlagsKept(sys, applied);
      var r := LoadPerPort(applied, available, config[1..]);
      assert r.controllers[..n] == r.controllers[..n + 1][..n];
      FlagsKeptTransitive(sys, applied, r);
      assert LinksKept(sys, applied);
      LinksKeptTransitive(sys, applied, r);
      r
  }

  /** Under per-port resolution, key k of a port configures slot k of that port's own controller. */
  lemma PerPortConfiguresOwnSlot(sys: System, available: set<string>, com: string, key: int, p: Patch)
    requires com in available && (key == 1 || key == 2)
    ensures var r := LoadPerPort(sys, available, [PortEntry(com, [MotorEntry(key, p)])]);
            && |r.controllers| == |sys.controllers| + 1
            && r.controllers[|sys.controllers|].com == com
            && r.controllers[|sys.controllers|].Slot(key - 1) == SetParams(Fresh, p)
            && r.controllers[|sys.controllers|].Slot(2 - key) == Fresh
  {
    var n := |sys.controllers|;
    var entries := [MotorEntry(key, p)];
    var config := [PortEntry(com, entries)];
    assert config[1..] == [];
    assert entries[1..] == [];
    var added := AddController(sys, available, com, DefaultBaud);
    assert MotorAt(added, n, key - 1) == Fresh;
    var next := WithMotor(added, n, key - 1, ApplyFields(Fresh, p));
    assert ApplyPortEntries(added, n, entries) == next;
    assert LoadPerPort(sys, available, config) == next;
  }

  /** The same two-port file as above, loaded per port, leaves each port's value on its own controller. */
  lemma PerPortSeparatesPorts()
    ensures var config := [PortEntry("A", [MotorEntry(1, Patch(None, Some(1.0), None, None))]),
                           PortEntry("B", [MotorEntry(1, Patch(None, Some(2.0), None, None))])];
            var r := LoadPerPort(Initial, {"A", "B"}, config);
            && |r.controllers| == 2
            && r.controllers[0].m1.params.kp == 1.0
            && r.controllers[1].m1.params.kp == 2.0
  {
  }
}

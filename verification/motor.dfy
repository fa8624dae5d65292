/**
 * The per-motor record (`Motors` in the controller module): setpoint and PID
 * gains, the last telemetry sample, and the `update` flag that marks
 * parameters not yet pushed to the board.
 */
module MotorState {
  import opened Wrappers
  import opened Codec

  /** Setpoint and gains, in the order `getParams` lists them. */
  datatype Params = Params(setPoint: real, kp: real, ki: real, kd: real)

  /** The six values a board reports per motor, in the order `getValues` lists them. */
  datatype Telemetry = Telemetry(rpm: real, error: real, pid: real,
                                 proportional: real, integral: real, derivative: real)

  datatype Motor = Motor(params: Params, telemetry: Telemetry, update: bool)

  /** Keyword arguments of `updateParams`/`setParams`; None means "not given". */
  datatype Patch = Patch(setPoint: Option<real>, kp: Option<real>, ki: Option<real>, kd: Option<real>)

  const NoPatch := Patch(None, None, None, None)

  /** A freshly constructed motor: every number zero, nothing pending. */
  const Fresh := Motor(Params(0.0, 0.0, 0.0, 0.0), Telemetry(0.0, 0.0, 0.0, 0.0, 0.0, 0.0), false)

  /** Field `f` after a keyword argument `given` was passed for it. */
  function Overwrite(f: real, given: Option<real>): real {
    given.GetOr(f)
  }

  /** Field-wise meaning of a partial write: given fields replaced, the others kept. */
  ghost predicate Patched(before: Params, patch: Patch, after: Params) {
    && (if patch.setPoint.Some? then after.setPoint == patch.setPoint.value else after.setPoint == before.setPoint)
    && (if patch.kp.Some? then after.kp == patch.kp.value else after.kp == before.kp)
    && (if patch.ki.Some? then after.ki == patch.ki.value else after.ki == before.ki)
    && (if patch.kd.Some? then after.kd == patch.kd.value else after.kd == before.kd)
  }

  function ApplyPatch(p: Params, patch: Patch): Params {
    Params(Overwrite(p.setPoint, patch.setPoint), Overwrite(p.kp, patch.kp),
           Overwrite(p.ki, patch.ki), Overwrite(p.kd, patch.kd))
  }

  /** `Motors.setParams`: partial write of the parameters; the flag is left alone. */
  function SetParams(m: Motor, patch: Patch): (r: Motor)
    ensures Patched(m.params, patch, r.params)
    ensures r.telemetry == m.telemetry
    ensures r.update == m.update
  {
    m.(params := ApplyPatch(m.params, patch))
  }

  /** `Motors.updateParams`: the same partial write, and the flag is raised even for an empty patch. */
  function UpdateParams(m: Motor, patch: Patch): (r: Motor)
    ensures Patched(m.params, patch, r.params)
    ensures r.telemetry == m.telemetry
    ensures r.update
  {
    m.(params := ApplyPatch(m.params, patch), update := true)
  }

  /** `updateParams` is `setParams` followed by raising the flag. */
  lemma UpdateIsSetThenMark(m: Motor, patch: Patch)
    ensures UpdateParams(m, patch) == SetParams(m, patch).(update := true)
  {
  }

  /** Writing the same patch twice changes nothing more than writing it once. */
  lemma UpdateIdempotent(m: Motor, patch: Patch)
    ensures UpdateParams(UpdateParams(m, patch), patch) == UpdateParams(m, patch)
    ensures SetParams(SetParams(m, patch), patch) == SetParams(m, patch)
  {
  }

  /**
   * Four single-field `setParams` calls, in the order the config loader makes
   * them, equal one `setParams` with all four fields.
   */
  lemma SetFieldByField(m: Motor, patch: Patch)
    ensures SetParams(SetParams(SetParams(SetParams(m,
              Patch(patch.setPoint, None, None, None)),
              Patch(None, patch.kp, None, None)),
              Patch(None, None, patch.ki, None)),
              Patch(None, None, None, patch.kd))
         == SetParams(m, patch)
  {
  }

  /** `Motors.getParams`: `[setPoint, kp, ki, kd]`. */
  function GetParams(m: Motor): (r: seq<real>)
    ensures |r| == 4
  {
    [m.params.setPoint, m.params.kp, m.params.ki, m.params.kd]
  }

  /** `Motors.getValues`: `[rpm, error, pid, proportional, integral, derivative]`. */
  function GetValues(m: Motor): (r: seq<real>)
    ensures |r| == 6
  {
    var t := m.telemetry;
    [t.rpm, t.error, t.pid, t.proportional, t.integral, t.derivative]
  }

  /** The parameter list determines the parameters. */
  lemma GetParamsInjective(a: Motor, b: Motor)
    requires GetParams(a) == GetParams(b)
    ensures a.params == b.params
  {
  }

  /** The value list determines the telemetry. */
  lemma GetValuesInjective(a: Motor, b: Motor)
    requires GetValues(a) == GetValues(b)
    ensures a.telemetry == b.telemetry
  {
  }

  /**
   * `Motors.updateValues` on one 24-byte half of a reply: value k of
   * `getValues` comes from bytes 4k..4k+4. Parameters and flag are untouched.
   */
  function UpdateValues(fmt: FloatFormat, m: Motor, data: seq<Byte>): (r: Motor)
    requires |data| == HalfLength
    ensures forall k :: 0 <= k < 6 ==> GetValues(r)[k] == fmt.unpackSingle(data[4 * k..4 * k + 4])
    ensures r.params == m.params && r.update == m.update
  {
    var v := UnpackSingles(fmt, data, 6);
    m.(telemetry := Telemetry(v[0], v[1], v[2], v[3], v[4], v[5]))
  }

  /** A sample a board packed from exactly representable values is read back unchanged. */
  lemma UpdateValuesRoundTrip(fmt: FloatFormat, m: Motor, t: Telemetry)
    requires Wellformed(fmt)
    requires SingleExact(fmt, t.rpm) && SingleExact(fmt, t.error) && SingleExact(fmt, t.pid)
    requires SingleExact(fmt, t.proportional) && SingleExact(fmt, t.integral) && SingleExact(fmt, t.derivative)
    ensures UpdateValues(fmt, m, PackSingles(fmt, GetValues(m.(telemetry := t)))).telemetry == t
  {
    var xs := GetValues(m.(telemetry := t));
    SinglesRoundTrip(fmt, xs);
  }
}

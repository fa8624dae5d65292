/**
 * The calculations the mobility tab performs on the registry: the averaged
 * speed and the sample histories of its update loop, the 100-point plot
 * window, the "at least one plot" rule, the setpoint broadcast and the
 * settings dialog's COM and gain logic.
 */
module Dashboard {
  import opened Wrappers
  import opened MotorState
  import opened Link
  import opened Registry
  import opened Config

  /** The tab always samples motors 1..6. */
  const ShownMotors: nat := 6
  /** Points kept on screen. */
  const WindowSize: nat := 100
  /** `defaultValues`: the six values used for a motor missing from the snapshot. */
  const Defaults: seq<real> := [0.0, 0.0, 0.0, 0.0, 0.0, 0.0]

  /** What `getAllValues` hands back: six values per motor number. */
  ghost predicate WellFormedSnapshot(data: map<int, seq<real>>) {
    forall i :: i in data ==> |data[i]| == 6
  }

  /** `data.get(idx, defaultValues)`. */
  function ValuesOf(data: map<int, seq<real>>, idx: int): (r: seq<real>)
    requires WellFormedSnapshot(data)
    ensures |r| == 6
    ensures idx in data ==> r == data[idx]
  {
    if idx in data then data[idx] else Defaults
  }

  /** A motor the snapshot lacks is plotted as six zeros. */
  lemma MissingMotorIsZeros(data: map<int, seq<real>>, idx: int)
    requires WellFormedSnapshot(data) && idx !in data
    ensures forall k :: 0 <= k < 6 ==> ValuesOf(data, idx)[k] == 0.0
  {
  }

  /** The rpm of motors 1..6 as the loop reads them. */
  function Rpms(data: map<int, seq<real>>): (r: seq<real>)
    requires WellFormedSnapshot(data)
    ensures |r| == ShownMotors
    ensures forall k :: 0 <= k < ShownMotors ==> r[k] == ValuesOf(data, k + 1)[0]
  {
    seq(ShownMotors, k requires 0 <= k < ShownMotors => ValuesOf(data, k + 1)[0])
  }

  // ---------------------------------------------------------------------------
  // Average speed
  // ---------------------------------------------------------------------------

  /** The strictly positive readings, in order. */
  function Positive(xs: seq<real>): (r: seq<real>)
    ensures |r| <= |xs|
    ensures forall k :: 0 <= k < |r| ==> r[k] > 0.0
  {
    if |xs| == 0 then []
    else Positive(xs[..|xs| - 1]) + (if xs[|xs| - 1] > 0.0 then [xs[|xs| - 1]] else [])
  }

  function Sum(xs: seq<real>): real {
    if |xs| == 0 then 0.0 else Sum(xs[..|xs| - 1]) + xs[|xs| - 1]
  }

  /** Mean of the positive readings, 0 when there are none. */
  function MeanPositive(xs: seq<real>): real {
    var p := Positive(xs);
    if |p| == 0 then 0.0 else Sum(p) / (|p| as real)
  }

  /** With no motor turning forward, the average speed is 0 rather than a division by zero. */
  lemma {:induction false} NoneMovingMeansZero(xs: seq<real>)
    requires forall k :: 0 <= k < |xs| ==> xs[k] <= 0.0
    ensures Positive(xs) == []
    ensures MeanPositive(xs) == 0.0
  {
    if |xs| > 0 {
      NoneMovingMeansZero(xs[..|xs| - 1]);
    }
  }

  /** Every positive reading is kept, and nothing else. */
  lemma {:induction false} PositiveContents(xs: seq<real>, x: real)
    ensures x in Positive(xs) <==> x in xs && x > 0.0
  {
    if |xs| > 0 {
      PositiveContents(xs[..|xs| - 1], x);
      assert xs == xs[..|xs| - 1] + [xs[|xs| - 1]];
    }
  }

  function MaxOf(xs: seq<real>): (r: real)
    requires |xs| > 0
    ensures forall k :: 0 <= k < |xs| ==> xs[k] <= r
  {
    if |xs| == 1 then xs[0]
    else
      var m := MaxOf(xs[..|xs| - 1]);
      if xs[|xs| - 1] > m then xs[|xs| - 1] else m
  }

  function MinOf(xs: seq<real>): (r: real)
    requires |xs| > 0
    ensures forall k :: 0 <= k < |xs| ==> r <= xs[k]
  {
    if |xs| == 1 then xs[0]
    else
      var m := MinOf(xs[..|xs| - 1]);
      if xs[|xs| - 1] < m then xs[|xs| - 1] else m
  }

  /** The extremes are actual readings. */
  lemma {:induction false} ExtremesAreReadings(xs: seq<real>)
    requires |xs| > 0
    ensures MinOf(xs) in xs && MaxOf(xs) in xs
  {
    if |xs| > 1 {
      ExtremesAreReadings(xs[..|xs| - 1]);
      assert xs == xs[..|xs| - 1] + [xs[|xs| - 1]];
    }
  }

  lemma {:induction false} SumBounds(xs: seq<real>, lo: real, hi: real)
    requires forall k :: 0 <= k < |xs| ==> lo <= xs[k] <= hi
    ensures (|xs| as real) * lo <= Sum(xs) <= (|xs| as real) * hi
  {
    if |xs| > 0 {
      SumBounds(xs[..|xs| - 1], lo, hi);
    }
  }

  /** The average speed lies between the slowest and the fastest motor that turns forward. */
  lemma MeanBetweenExtremes(xs: seq<real>)
    requires |Positive(xs)| > 0
    ensures MinOf(Positive(xs)) <= MeanPositive(xs) <= MaxOf(Positive(xs))
    ensures MinOf(Positive(xs)) in xs && MaxOf(Positive(xs)) in xs
    ensures MeanPositive(xs) > 0.0
  {
    var p := Positive(xs);
    MeanOfPositives(xs);
    MeanWithinExtremes(p);
    ExtremesAreReadings(p);
    PositiveContents(xs, MinOf(p));
    PositiveContents(xs, MaxOf(p));
  }

  lemma MeanWithinExtremes(p: seq<real>)
    requires |p| > 0
    ensures MinOf(p) <= Sum(p) / (|p| as real) <= MaxOf(p)
  {
    SumBounds(p, MinOf(p), MaxOf(p));
    DivBetween(Sum(p), |p| as real, MinOf(p), MaxOf(p));
  }

  lemma MeanOfPositives(xs: seq<real>)
    requires |Positive(xs)| > 0
    ensures MeanPositive(xs) == Sum(Positive(xs)) / (|Positive(xs)| as real)
  {
  }

  lemma DivBetween(s: real, n: real, lo: real, hi: real)
    requires n > 0.0 && n * lo <= s <= n * hi
    ensures lo <= s / n <= hi
  {
  }

  // ---------------------------------------------------------------------------
  // Sample histories of the update loop
  // ---------------------------------------------------------------------------

  /** The six series plotted for one motor. */
  datatype Series = Series(speed: seq<real>, error: seq<real>, pid: seq<real>,
                           proportional: seq<real>, integral: seq<real>, derivative: seq<real>)

  /** Everything the loop appends to: times, setpoints, average speeds and six series per motor. */
  datatype History = History(time: seq<real>, sp: seq<real>, speed: seq<real>, plot: seq<Series>)

  ghost predicate SeriesOfLength(s: Series, n: nat) {
    |s.speed| == n && |s.error| == n && |s.pid| == n
    && |s.proportional| == n && |s.integral| == n && |s.derivative| == n
  }

  /** All histories have one entry per loop pass. */
  ghost predicate Aligned(h: History) {
    && |h.plot| == ShownMotors
    && |h.sp| == |h.time| && |h.speed| == |h.time|
    && forall i :: 0 <= i < ShownMotors ==> SeriesOfLength(h.plot[i], |h.time|)
  }

  const NoSeries := Series([], [], [], [], [], [])
  const Started := History([], [], [], [NoSeries, NoSeries, NoSeries, NoSeries, NoSeries, NoSeries])

  lemma StartedAligned()
    ensures Aligned(Started)
  {
  }

  /** One value appended to each series, in `getValues` order. */
  function Extend(s: Series, v: seq<real>): (r: Series)
    requires |v| == 6
  {
    Series(s.speed + [v[0]], s.error + [v[1]], s.pid + [v[2]],
           s.proportional + [v[3]], s.integral + [v[4]], s.derivative + [v[5]])
  }

  lemma ExtendLength(s: Series, v: seq<real>, n: nat)
    requires |v| == 6 && SeriesOfLength(s, n)
    ensures SeriesOfLength(Extend(s, v), n + 1)
  {
  }

  /** The setpoint recorded: the entry's value, or the last one if the entry is unreadable, or 0. */
  function SetpointSample(sp: seq<real>, entry: Option<real>): real {
    match entry
    case Some(v) => v
    case None => if |sp| > 0 then sp[|sp| - 1] else 0.0
  }

  /** Sum of the positive readings among the first k, accumulated the way the loop does. */
  function PositiveTotal(xs: seq<real>, k: nat): real
    requires k <= |xs|
  {
    if k == 0 then 0.0 else PositiveTotal(xs, k - 1) + (if xs[k - 1] > 0.0 then xs[k - 1] else 0.0)
  }

  /** How many of the first k readings are positive. */
  function PositiveCount(xs: seq<real>, k: nat): nat
    requires k <= |xs|
  {
    if k == 0 then 0 else PositiveCount(xs, k - 1) + (if xs[k - 1] > 0.0 then 1 else 0)
  }

  /** The loop's running total and count are the sum and size of the positive readings so far. */
  lemma {:induction false} RunningTotals(xs: seq<real>, k: nat)
    requires k <= |xs|
    ensures PositiveTotal(xs, k) == Sum(Positive(xs[..k]))
    ensures PositiveCount(xs, k) == |Positive(xs[..k])|
  {
    if k > 0 {
      RunningTotals(xs, k - 1);
      var ys := xs[..k];
      assert ys[..|ys| - 1] == xs[..k - 1];
      assert ys[|ys| - 1] == xs[k - 1];
      var p := Positive(xs[..k - 1]);
      if xs[k - 1] > 0.0 {
        var q := p + [xs[k - 1]];
        assert Positive(ys) == q;
        assert q[..|q| - 1] == p;
        assert Sum(q) == Sum(p) + xs[k - 1];
      } else {
        assert Positive(ys) == p + [];
        assert p + [] == p;
      }
    }
  }

  /** Extending every series of an aligned history by one sample keeps them one entry longer. */
  lemma ExtendedAligned(h: History, data: map<int, seq<real>>, plot: seq<Series>)
    requires Aligned(h) && WellFormedSnapshot(data) && |plot| == ShownMotors
    requires forall i :: 0 <= i < ShownMotors ==> plot[i] == Extend(h.plot[i], ValuesOf(data, i + 1))
    ensures forall i :: 0 <= i < ShownMotors ==> SeriesOfLength(plot[i], |h.time| + 1)
  {
    forall i | 0 <= i < ShownMotors
      ensures SeriesOfLength(plot[i], |h.time| + 1)
    {
      assert SeriesOfLength(h.plot[i], |h.time|);
      ExtendLength(h.plot[i], ValuesOf(data, i + 1), |h.time|);
    }
  }

  /** The loop of `updateData` over motors 1..6 that appends each motor's values to its six series. */
  method ExtendSeries(plot: seq<Series>, data: map<int, seq<real>>) returns (next: seq<Series>)
    requires |plot| == ShownMotors && WellFormedSnapshot(data)
    ensures |next| == ShownMotors
    ensures forall i :: 0 <= i < ShownMotors ==> next[i] == Extend(plot[i], ValuesOf(data, i + 1))
  {
    next := plot;
    var idx := 1;
    while idx <= ShownMotors
      invariant 1 <= idx <= ShownMotors + 1
      invariant |next| == ShownMotors
      invariant forall i :: 0 <= i < idx - 1 ==> next[i] == Extend(plot[i], ValuesOf(data, i + 1))
      invariant forall i :: idx - 1 <= i < ShownMotors ==> next[i] == plot[i]
    {
      next := next[idx - 1 := Extend(next[idx - 1], ValuesOf(data, idx))];
      idx := idx + 1;
    }
  }

  /**
   * The same loop's running total and count of the positive rpm readings
   * (`tempSpeed`, `speedIdx`), and the average it records.
   */
  method AverageSpeed(data: map<int, seq<real>>) returns (average: real)
    requires WellFormedSnapshot(data)
    ensures average == MeanPositive(Rpms(data))
  {
    var total := 0.0;
    var count: nat := 0;
    var idx := 1;
    ghost var rpms := Rpms(data);
    while idx <= ShownMotors
      invariant 1 <= idx <= ShownMotors + 1
      invariant total == PositiveTotal(rpms, idx - 1)
      invariant count == PositiveCount(rpms, idx - 1)
    {
      var values := ValuesOf(data, idx);
      if values[0] > 0.0 {
        total := total + values[0];
        count := count + 1;
      }
      idx := idx + 1;
    }
    RunningTotals(rpms, ShownMotors);
    assert rpms[..ShownMotors] == rpms;
    average := if count == 0 then 0.0 else total / (count as real);
  }

  /**
   * One pass of `updateData` over a snapshot: one time, one setpoint and one
   * average speed appended, and one value to each series of motors 1..6
   * (six zeros for a motor the snapshot lacks).
   */
  method Sample(h: History, data: map<int, seq<real>>, entry: Option<real>, elapsed: real)
    returns (next: History)
    requires Aligned(h) && WellFormedSnapshot(data)
    ensures Aligned(next) && |next.time| == |h.time| + 1
    ensures next.time == h.time + [elapsed]
    ensures next.sp == h.sp + [SetpointSample(h.sp, entry)]
    ensures next.speed == h.speed + [MeanPositive(Rpms(data))]
    ensures forall i :: 0 <= i < ShownMotors ==> next.plot[i] == Extend(h.plot[i], ValuesOf(data, i + 1))
  {
    var sp := h.sp + [SetpointSample(h.sp, entry)];
    var time := h.time + [elapsed];
    var plot := ExtendSeries(h.plot, data);
    var average := AverageSpeed(data);
    ExtendedAligned(h, data, plot);
    next := History(time, sp, h.speed + [average], plot);
  }

  // ---------------------------------------------------------------------------
  // Plot window
  // ---------------------------------------------------------------------------

  /** `limMin` of `updateGraphs` for `limMax` samples. */
  function WindowStart(limMax: nat): (limMin: nat)
    ensures limMin <= limMax
    ensures limMax - limMin == if limMax < WindowSize then limMax else WindowSize
  {
    if limMax > WindowSize then limMax - WindowSize else 0
  }

  /** The points drawn: at most 100, always ending at the latest sample. */
  function Visible<T>(s: seq<T>): (r: seq<T>)
    ensures |r| <= WindowSize
    ensures |r| == |s| || |r| == WindowSize
    ensures |r| <= |s| && r == s[|s| - |r|..]
  {
    s[WindowStart(|s|)..]
  }

  /** Cutting every series at the start computed from the time axis shows the same window of each. */
  lemma WindowAligned(h: History, i: nat)
    requires Aligned(h) && i < ShownMotors
    ensures var lim := WindowStart(|h.time|);
            && h.sp[lim..] == Visible(h.sp)
            && h.speed[lim..] == Visible(h.speed)
            && h.plot[i].speed[lim..] == Visible(h.plot[i].speed)
            && h.plot[i].error[lim..] == Visible(h.plot[i].error)
            && h.plot[i].pid[lim..] == Visible(h.plot[i].pid)
            && h.plot[i].proportional[lim..] == Visible(h.plot[i].proportional)
            && h.plot[i].integral[lim..] == Visible(h.plot[i].integral)
            && h.plot[i].derivative[lim..] == Visible(h.plot[i].derivative)
            && |Visible(h.plot[i].speed)| == |Visible(h.time)|
  {
  }

  // ---------------------------------------------------------------------------
  // Plot selection
  // ---------------------------------------------------------------------------

  /** The three checkboxes: "SP vs PV", "Error vs Man", "PID Actions". */
  datatype PlotChoice = PlotChoice(speed: bool, control: bool, actions: bool)

  function ActiveCount(p: PlotChoice): nat {
    (if p.speed then 1 else 0) + (if p.control then 1 else 0) + (if p.actions then 1 else 0)
  }

  /** The fix-up of `checkboxToggle`: when all three are off, the first is switched back on. */
  function CheckboxFixUp(p: PlotChoice): (r: PlotChoice)
    ensures ActiveCount(r) >= 1
    ensures ActiveCount(p) > 0 ==> r == p
    ensures ActiveCount(p) == 0 ==> r == PlotChoice(true, false, false)
  {
    if ActiveCount(p) == 0 && !p.speed then p.(speed := true) else p
  }

  // ---------------------------------------------------------------------------
  // Setpoint broadcast and settings dialog
  // ---------------------------------------------------------------------------

  function SetPointOnly(v: real): Patch {
    Patch(Some(v), None, None, None)
  }

  /**
   * `rpmUpdate`: every motor of every controller gets the entry's setpoint
   * and a raised flag; an unreadable entry changes nothing.
   */
  function RpmUpdate(sys: System, entry: Option<real>): (r: System)
    ensures entry.None? ==> r == sys
    ensures |r.controllers| == |sys.controllers| && r.running == sys.running
    ensures entry.Some? ==> forall i, s :: 0 <= i < |sys.controllers| && 0 <= s < 2 ==>
              && r.controllers[i].Slot(s).params.setPoint == entry.value
              && r.controllers[i].Slot(s).update
              && r.controllers[i].Slot(s).params.kp == sys.controllers[i].Slot(s).params.kp
              && r.controllers[i].Slot(s).params.ki == sys.controllers[i].Slot(s).params.ki
              && r.controllers[i].Slot(s).params.kd == sys.controllers[i].Slot(s).params.kd
              && r.controllers[i].Slot(s).telemetry == sys.controllers[i].Slot(s).telemetry
    ensures Coms(r) == Coms(sys)
    ensures forall i :: 0 <= i < |sys.controllers| ==>
              r.controllers[i].baud == sys.controllers[i].baud && r.controllers[i].running == sys.controllers[i].running
  {
    match entry
    case None => sys
    case Some(v) =>
      var cs := sys.controllers;
      sys.(controllers := seq(|cs|, i requires 0 <= i < |cs| =>
        cs[i].(m1 := UpdateParams(cs[i].m1, SetPointOnly(v)), m2 := UpdateParams(cs[i].m2, SetPointOnly(v)))))
  }

  /** After a broadcast every motor number reads back the broadcast setpoint. */
  lemma RpmUpdateReachesEveryNumber(sys: System, v: real, idx: int)
    requires 1 <= idx <= 2 * |sys.controllers|
    ensures var m := GetMotor(RpmUpdate(sys, Some(v)), idx);
            m.Ok? && m.value.Some? && m.value.value.params.setPoint == v && m.value.value.update
  {
  }

  /**
   * `sendsettings`: a COM that no registered controller uses is offered to
   * `addController`; then the selected motor's kp, ki and kd are written with
   * `updateMotor`, its setpoint left alone. A selection without a controller
   * fails on the None controller before anything changes.
   */
  function SendSettings(sys: System, available: set<string>, motorIdx: int, newCom: string,
                        kp: real, ki: real, kd: real): (r: Result<System, Fault>)
    ensures |sys.controllers| == 0 || motorIdx > 2 * |sys.controllers| ==> r == Err(AttributeError)
    ensures r.Ok? ==>
              |r.value.controllers| == |sys.controllers| + (if newCom !in Coms(sys) && newCom in available then 1 else 0)
    ensures r.Ok? && newCom !in Coms(sys) && newCom in available ==>
              var appended := r.value.controllers[|sys.controllers|];
              && appended.com == newCom && appended.baud == DefaultBaud && appended.running
              && (motorIdx >= 1 ==> appended == NewController(newCom, DefaultBaud))
    ensures 1 <= motorIdx <= 2 * |sys.controllers| ==>
              var c, s := (motorIdx - 1) / 2, (motorIdx - 1) % 2;
              var before := MotorAt(sys, c, s);
              && r.Ok?
              && |r.value.controllers| >= |sys.controllers|
              && MotorAt(r.value, c, s) == UpdateParams(before, Patch(None, Some(kp), Some(ki), Some(kd)))
              && MotorAt(r.value, c, s).params.setPoint == before.params.setPoint
              && (forall i, t :: 0 <= i < |sys.controllers| && 0 <= t < 2 && (i, t) != (c, s) ==>
                    MotorAt(r.value, i, t) == MotorAt(sys, i, t))
              && Coms(r.value)[..|sys.controllers|] == Coms(sys)
  {
    var motor :- GetMotor(sys, motorIdx);
    // getMotorController resolves exactly like getMotor, so it cannot raise here
    var tiva := GetMotorController(sys, motorIdx);
    if tiva.Err? || tiva.value.None? then Err(AttributeError)
    else
      var added := if tiva.value.value.com != newCom && newCom !in Coms(sys)
                   then AddController(sys, available, newCom, DefaultBaud) else sys;
      if motor.Some? then UpdateMotor(added, motorIdx, Patch(None, Some(kp), Some(ki), Some(kd)))
      else Ok(added)
  }

  /**
   * The dialog never stops anything: the system's run flag and every
   * registered controller's port, baud rate and run flag are kept.
   */
  lemma SendSettingsKeepsLinks(sys: System, available: set<string>, motorIdx: int, newCom: string,
                               kp: real, ki: real, kd: real)
    ensures var r := SendSettings(sys, available, motorIdx, newCom, kp, ki, kd);
            r.Ok? ==>
              && |r.value.controllers| >= |sys.controllers|
              && r.value.running == sys.running
              && forall i :: 0 <= i < |sys.controllers| ==>
                   && r.value.controllers[i].com == sys.controllers[i].com
                   && r.value.controllers[i].baud == sys.controllers[i].baud
                   && r.value.controllers[i].running == sys.controllers[i].running
  {
    var r := SendSettings(sys, available, motorIdx, newCom, kp, ki, kd);
    if r.Ok? {
      var added := if newCom !in Coms(sys) then AddController(sys, available, newCom, DefaultBaud) else sys;
      assert added.controllers[..|sys.controllers|] == sys.controllers;
      assert UpdateMotor(added, motorIdx, Patch(None, Some(kp), Some(ki), Some(kd))).Ok?;
    }
  }

  /**
   * Number 0 is resolved twice: before the new port is registered it names
   * the old last motor, so the dialog proceeds; afterwards `updateMotor`
   * resolves it again and the gains land on motor 2 of the new controller.
   */
  lemma SettingsZeroReachesNewPort(sys: System, available: set<string>, newCom: string, kp: real, ki: real, kd: real)
    requires |sys.controllers| >= 1 && newCom !in Coms(sys) && newCom in available
    ensures var r := SendSettings(sys, available, 0, newCom, kp, ki, kd);
            && r.Ok?
            && |r.value.controllers| == |sys.controllers| + 1
            && r.value.controllers[|sys.controllers|].m1 == Fresh
            && r.value.controllers[|sys.controllers|].m2 == UpdateParams(Fresh, Patch(None, Some(kp), Some(ki), Some(kd)))
            && r.value.controllers[..|sys.controllers|] == sys.controllers
  {
  }
}

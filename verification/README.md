# Rover mobility control plane in Dafny

This project models the host side of the rover's motor control: the Python
`MotorControllerSystem` / `Controller` / `Motors` classes in
`Movilidad/Servidor/controller.py`, and the pure calculations that the
mobility tab in `Movilidad/Interfaz/movilidadCTK.py` runs on them.

The model is functional. A `Registry.System` is an append-only sequence of
`Link.Controller`s. Each controller owns exactly two `MotorState.Motor`s.
A motor holds its setpoint and gains, the last telemetry sample, and the
`update` (dirty) flag. Every operation is a pure step from the old value to
the new one.

- `Registry`: the 1-based logical motor numbers. Number `i` is slot `(i-1) % 2`
  of controller `(i-1) / 2`. The module covers lookup, update, registration,
  the snapshots and the run flags. Numbers at or below 0 follow Python's
  negative list indexing, exactly as `getMotor` does: number `i` reaches the
  motor numbered `i + 2N`, and numbers below `1 - 2N` raise `IndexError`.
- `Link`: one pass of the poll/push loop. If either flag is up, one request
  frame is pushed, and motor 1 goes first. Then the loop always polls with
  `'$'` and applies the reply only if it is exactly 48 bytes long.
- `Codec`: the frame layouts. The request is `'&'`, then the slot as u32,
  then setPoint, kp and ki as binary32, then kd as binary64: 25 bytes in all.
  The reply is 2 × 6 binary32 values. The u32 is encoded concretely as
  little-endian. The IEEE 754 packing itself is the parameter
  `Codec.FloatFormat`, of which the model only assumes the 4- and 8-byte widths.
- `MotorState`: the partial writes `updateParams` (raises the flag) and
  `setParams` (leaves the flag alone), `getParams`/`getValues`, and
  `updateValues`.
- `Config`: `jsonConfig` on an already parsed file. It also holds the corrected
  per-port loader described under Findings.
- `Dashboard`: from the tab, the average of the positive rpm readings, the
  per-pass sample histories, the 100-point plot window, the "at least one
  plot" rule, the setpoint broadcast and the settings dialog.

Behaviours of the code that are easy to misread, and that the model keeps:
- the slot number in the frame is 1 or 2, not 0 or 1;
- the field order is setPoint, kp, ki (binary32), then kd (binary64), so the
  frame is 25 bytes long;
- the config loader uses `setParams`, so it never raises a flag;
- config motor keys are global logical numbers;
- `addController` does not reject a port that is already registered. Only
  the settings dialog guards against that.

## Model

| member | source | states |
|---|---|---|
| Codec.U32 | Movilidad/Servidor/controller.py:165 | the slot field is 4 bytes whose little-endian value is the slot |
| Codec.LittleEndianRoundTrip | Movilidad/Servidor/controller.py:165 | decoding the little-endian bytes of n gives back n |
| Codec.LittleEndianOfValue | Movilidad/Servidor/controller.py:165 | re-encoding the value of any byte string gives back the same bytes (with the previous row, a bijection) |
| Codec.EncodeRequest | Movilidad/Servidor/controller.py:164-170 | the request frame is 25 bytes, starts with '&' and carries the slot in bytes 1..5 |
| Codec.ParseRequest | Movilidad/Servidor/controller.py:164-170 | a board's reading of a frame succeeds exactly on 25-byte frames that start with '&' |
| Codec.RequestRoundTrip | Movilidad/Servidor/controller.py:164-170 | the frame for a slot and `[setPoint, kp, ki, kd]` parses back to that slot and to the three binary32 encodings and the one binary64 encoding, in that order |
| Codec.ParseReassembles | Movilidad/Servidor/controller.py:164-170 | a parsed frame is rebuilt byte for byte from its fields, so the frame holds no other bytes |
| Codec.UnpackSingles | Movilidad/Servidor/controller.py:192-198 | value k of a run of binary32 fields is decoded from bytes 4k..4k+4 |
| Codec.SinglesRoundTrip | Movilidad/Servidor/controller.py:235-237 | decoding packed values gives them back whenever binary32 represents them exactly |
| MotorState.SetParams | Movilidad/Servidor/controller.py:211-219 | exactly the given fields are overwritten; other parameters, telemetry and the flag are unchanged |
| MotorState.UpdateParams | Movilidad/Servidor/controller.py:200-209 | exactly the given fields are overwritten, telemetry is unchanged, and the flag is up even for an empty patch |
| MotorState.UpdateIsSetThenMark | Movilidad/Servidor/controller.py:200-219 | `updateParams` equals `setParams` followed by raising the flag |
| MotorState.UpdateIdempotent | Movilidad/Servidor/controller.py:200-219 | applying the same partial write twice equals applying it once |
| MotorState.SetFieldByField | Movilidad/Servidor/controller.py:38-41 | the four single-field `setParams` calls equal one call with all four fields |
| MotorState.GetParams | Movilidad/Servidor/controller.py:221-222 | the parameter list has four entries; the field order is fixed by what `SendParams` proves about the frame |
| MotorState.GetParamsInjective | Movilidad/Servidor/controller.py:221-222 | the parameter list determines setPoint, kp, ki and kd |
| MotorState.GetValues | Movilidad/Servidor/controller.py:224-225 | the telemetry list has six entries |
| MotorState.GetValuesInjective | Movilidad/Servidor/controller.py:224-225 | the telemetry list determines all six telemetry fields |
| MotorState.UpdateValues | Movilidad/Servidor/controller.py:192-198 | entry k of `getValues` (rpm, error, pid, proportional, integral, derivative) comes from bytes 4k..4k+4 of the half; parameters and flag are unchanged |
| MotorState.UpdateValuesRoundTrip | Movilidad/Servidor/controller.py:192-198 | a half packed from exactly representable values is read back as the same telemetry |
| Link.NewController | Movilidad/Servidor/controller.py:116-129 | a new controller keeps its port and baud rate, has its run flag up, and owns two all-zero motors with no pending update |
| Link.SendParams | Movilidad/Servidor/controller.py:154-170 | motor 1 is sent with slot number 1 if its flag is up, otherwise motor 2 with slot number 2; the frame parses to that motor's packed parameters; only the sent motor's flag drops |
| Link.ReceiveParams | Movilidad/Servidor/controller.py:147-152 | a 48-byte reply sets motor 1's six values from bytes 0..24 and motor 2's from 24..48; any other length leaves all twelve values unchanged; parameters and flags never change |
| Link.Iterate | Movilidad/Servidor/controller.py:136-170 | a running pass writes one request frame and then '$' if a flag is up, otherwise only '$'; the frame carries motor 1 with slot number 1 if its flag is up, otherwise motor 2 with slot number 2, and only that motor's flag drops; a 48-byte reply sets both motors' six values from bytes 0..24 and 24..48, and any other reply (or a stopped loop) leaves telemetry unchanged; no pass changes a parameter, the port, the baud rate or the run flag; a stopped loop writes nothing |
| Link.TwoPassesDrain | Movilidad/Servidor/controller.py:139-162 | with both flags up, the first pass sends slot 1, the second sends slot 2, and after two passes nothing is pending and no parameter has changed |
| Registry.Locate | Movilidad/Servidor/controller.py:88-95 | numbers 1..2N lead to the pair whose number they are; numbers above 2N, or any number with no controllers, lead nowhere; numbers in 1-2N..0 reach the motor numbered idx+2N; lower numbers raise |
| Registry.LocateBijective | Movilidad/Servidor/controller.py:91-93 | every (controller, slot) pair's number lies in 1..2N and leads back to that pair |
| Registry.LocateStable | Movilidad/Servidor/controller.py:89-93 | registering more controllers never changes where the numbers 1..2N lead |
| Registry.ZeroIsLastMotor | Movilidad/Servidor/controller.py:90-93 | number 0 resolves, through negative indexing, to the second motor of the last controller |
| Registry.GetMotor | Movilidad/Servidor/controller.py:88-95 | for 1 ≤ idx ≤ 2N it returns `controllers[(idx-1) div 2].motors[(idx-1) mod 2]`; it returns None when N = 0 or idx > 2N; it raises only below the negative-index range |
| Registry.GetMotorController | Movilidad/Servidor/controller.py:97-103 | returns controller (idx-1) div 2 for valid numbers and None in the same cases as `getMotor`, and it fails exactly when `getMotor` fails |
| Registry.UpdateMotor | Movilidad/Servidor/controller.py:105-112 | any number that resolves (negative ones included) gets `updateParams` on the motor it resolves to and nothing else changes; an unknown number changes nothing; it raises exactly when `getMotor` does |
| Registry.UpdateMotorReadBack | Movilidad/Servidor/controller.py:105-112 | after an update, the number reads back the updated motor and every other number reads as before |
| Registry.AddController | Movilidad/Servidor/controller.py:13-24 | an unavailable port leaves the system unchanged; otherwise exactly one new started controller is appended after the existing ones |
| Registry.AddKeepsNumbering | Movilidad/Servidor/controller.py:18-24 | after a registration, old numbers reach the same motors, and 2N+1 and 2N+2 reach the two fresh motors |
| Registry.GetAllParams | Movilidad/Servidor/controller.py:56-70 | the keys are exactly 1..2N, and key i holds the parameter list of the motor numbered i |
| Registry.GetAllValues | Movilidad/Servidor/controller.py:72-86 | the keys are exactly 1..2N, and key i holds the six telemetry values of the motor numbered i |
| Registry.StopAll | Movilidad/Servidor/controller.py:44-48 | the system's run flag and every controller's run flag are down, and nothing else changes |
| Registry.SetpointPushedOnNextPass | Movilidad/Servidor/controller.py:154-170 | after registering P1 and setting motor 1 to 120, that motor is dirty with setpoint 120; one pass clears the flag and writes the frame for slot 1, setpoint 120 and zero gains |
| Config.ApplyFields | Movilidad/Servidor/controller.py:38-41 | the four calls made per entry amount to one partial `setParams` |
| Config.ApplyEntries | Movilidad/Servidor/controller.py:33-41 | it registers nothing, keeps every motor's update flag, every port, baud rate and run flag, and cannot fail when all keys are ≥ 1 |
| Config.ResolvedEntryApplied | Movilidad/Servidor/controller.py:33-41 | an entry whose key resolves writes its fields with `setParams` to the motor the key resolves to, and loading continues from there |
| Config.EntriesTouchOnlyNamedMotors | Movilidad/Servidor/controller.py:33-41 | loading entries never changes telemetry, and a motor that no entry's key resolves to is left unchanged |
| Config.UnresolvedEntrySkipped | Movilidad/Servidor/controller.py:34-37 | an entry whose key leads nowhere is skipped, and loading continues with the next entry |
| Config.Load | Movilidad/Servidor/controller.py:26-41 | the registered ports are exactly the available ports, in file order; existing controllers keep their baud rates, run flags and motors' update flags; every new controller runs at the default baud rate with its run flag up and its motors' flags down |
| Config.LoadFirstPort | Movilidad/Servidor/controller.py:30-41 | ports are handled in file order: the first port is registered (if available), its entries are applied to the system so far, and the rest is loaded from the result; an entry that raises stops the load |
| Config.LoadSinglePortExample | Movilidad/Servidor/controller.py:30-41 | loading P1 with motor 1 = {kp 2.0, ki 0.5} gives motor 1 kp 2.0 and ki 0.5, with setpoint and kd still 0 and the flag down |
| Config.LoadResolvesKeysGlobally | Movilidad/Servidor/controller.py:32-34 | two ports that each configure motor "1" both write controller 0, and the second controller stays fresh |
| Config.ApplyPortEntries | Movilidad/Servidor/controller.py:33-41 | corrected: a port's entries change only that port's own controller and never its flags |
| Config.LoadPerPort | Movilidad/Servidor/controller.py:26-41 | corrected: controllers registered earlier are untouched, the ports are the available ones in order, every new controller runs at the default baud rate, and no update flag is raised |
| Config.PerPortConfiguresOwnSlot | Movilidad/Servidor/controller.py:33-41 | corrected: key k of a port configures slot k of that port's new controller, and its other motor stays fresh |
| Config.PerPortSeparatesPorts | Movilidad/Servidor/controller.py:30-41 | corrected: the two-port file leaves each port's value on its own controller |
| Dashboard.ValuesOf | Movilidad/Interfaz/movilidadCTK.py:627 | a motor in the snapshot reads as its six values |
| Dashboard.MissingMotorIsZeros | Movilidad/Interfaz/movilidadCTK.py:627 | a motor missing from the snapshot reads as six zeros |
| Dashboard.Rpms | Movilidad/Interfaz/movilidadCTK.py:626-635 | the loop reads the first value of motors 1..6, defaults included |
| Dashboard.Positive | Movilidad/Interfaz/movilidadCTK.py:635-637 | only strictly positive readings are kept |
| Dashboard.PositiveContents | Movilidad/Interfaz/movilidadCTK.py:635-637 | a reading is kept exactly when it is positive |
| Dashboard.NoneMovingMeansZero | Movilidad/Interfaz/movilidadCTK.py:639-640 | with no positive rpm the average speed is 0, not a division by zero |
| Dashboard.MeanBetweenExtremes | Movilidad/Interfaz/movilidadCTK.py:635-642 | otherwise the average lies between the smallest and the largest positive reading, both of which are actual readings, and it is positive |
| Dashboard.RunningTotals | Movilidad/Interfaz/movilidadCTK.py:623-637 | the loop's running total and counter are the sum and the number of positive readings so far |
| Dashboard.ExtendSeries | Movilidad/Interfaz/movilidadCTK.py:623-635 | the loop over motors 1..6 appends to each motor's six series exactly that motor's values (defaults for a missing motor) |
| Dashboard.AverageSpeed | Movilidad/Interfaz/movilidadCTK.py:623-642 | the average the loop records is the mean of the positive rpm readings of motors 1..6, or 0 when none is positive |
| Dashboard.Sample | Movilidad/Interfaz/movilidadCTK.py:606-642 | one pass appends exactly one time, one setpoint (entry, else last, else 0), one average speed and one value to each of the six series of motors 1..6, keeping all histories the same length |
| Dashboard.StartedAligned | Movilidad/Interfaz/movilidadCTK.py:26-38 | the initially empty histories all have the same length |
| Dashboard.WindowStart | Movilidad/Interfaz/movilidadCTK.py:707-708 | the window holds min(limMax, 100) points |
| Dashboard.Visible | Movilidad/Interfaz/movilidadCTK.py:707-711 | the plotted slice has at most 100 points, is the whole series when it is shorter, and always ends at the latest sample |
| Dashboard.WindowAligned | Movilidad/Interfaz/movilidadCTK.py:707-731 | cutting every aligned series at the start computed from the time axis gives each series' own last-100 window |
| Dashboard.CheckboxFixUp | Movilidad/Interfaz/movilidadCTK.py:683-689 | afterwards at least one plot is selected; a selection that already had one is unchanged; an empty one becomes "SP vs PV" only |
| Dashboard.RpmUpdate | Movilidad/Interfaz/movilidadCTK.py:250-258 | every motor of every controller gets the entry as its setpoint, with its flag up and gains and telemetry kept; every controller keeps its port, baud rate and run flag; an unreadable entry changes nothing |
| Dashboard.RpmUpdateReachesEveryNumber | Movilidad/Interfaz/movilidadCTK.py:254-256 | after a broadcast every motor number reads back the setpoint, with its flag up |
| Dashboard.SendSettings | Movilidad/Interfaz/movilidadCTK.py:504-526 | a new controller is registered exactly when the COM is unused and available, on that COM at the default baud rate with its run flag up, and for motor numbers ≥ 1 it is a fresh `NewController`; the selected motor gets kp/ki/kd with its setpoint kept and its flag up, and all other motors are unchanged; a selection without a controller fails |
| Dashboard.SendSettingsKeepsLinks | Movilidad/Interfaz/movilidadCTK.py:504-526 | on success, the system's run flag and every registered controller's port, baud rate and run flag are kept |
| Dashboard.SettingsZeroReachesNewPort | Movilidad/Interfaz/movilidadCTK.py:509-526 | motor number 0 passes the check against the old last motor, but `updateMotor` resolves it again after the new COM is registered, so the gains land on motor 2 of the new controller; the path is latent, because the dialog's menu (`viewOptions[1:-1]`) only offers Motor 1..5 |

## Left out

- Serial I/O is not modelled: opening ports, timeouts, writes and port
  enumeration. The enumerated ports are an input set, the bytes read are an
  input sequence, and the bytes written are an output of `Link.Iterate`.
- Threads are not modelled: `startThread`, `stopThread`, the `join` in
  `stopAll`, the tab's daemon threads, and the unsynchronised access from
  several threads. Only the run-flag part of `stopAll` is modelled.
- The `SerialException` path of `requestLoop` (message, two-second sleep,
  loop exit) is transport-fault handling and is left out.
- IEEE 754 bit-level packing is not modelled. `Codec.FloatFormat` is a
  parameter, and values are `real`, so NaN and infinities are outside the
  model.
- MotorState.UpdateValues: requires a 24-byte half. The `None` result of
  `getNumber` on a short slice is not modelled, because both call sites pass
  24-byte halves of a 48-byte reply.
- JSON reading is not modelled: `open`, `json.load`, a non-numeric motor key
  (`int(idx)` raising) and non-numeric field values. The configuration is an
  already parsed sequence of ports and entries.
- Printing (`showAllMotors`, `showMotors`, `showValues`, error messages) is
  not modelled.
- GUI code is not modelled: widgets, matplotlib figures, `createPlots`,
  `updateTextBox`, the camera, `utilities.py` and `mainCTK.py`. From
  `updateGraphs` only the window bounds are modelled, not the drawing.
- Dashboard.Sample: takes the elapsed time and the setpoint entry (None when
  `rpmVar.get()` fails) as inputs. It does not model `time.time()`, the sleep
  or the `KeyboardInterrupt` handler.
- Dashboard.SendSettings: takes the motor number and the three gains as
  already read. It does not model parsing the "Motor k" label, a `DoubleVar`
  read error, or the tolerance field. It accepts any motor number, although
  the dialog's menu only offers Motor 1..5, so numbers ≤ 0 (see
  `Dashboard.SettingsZeroReachesNewPort`) are latent paths.
- Link.SendParams: does not model the `OverflowError` that `struct.pack('f', …)`
  raises for a finite value beyond the binary32 range (for example a 1e39
  setpoint broadcast by `rpmUpdate`). In the code the flag is already cleared
  at that point, so the update is lost, and the exception escapes
  `requestLoop`, which only catches `SerialException`, ending that
  controller's thread. The model treats every real as packable.
- Link.Iterate: returns the bytes written. It does not model the read
  timeout, so a short or empty read is just a reply of another length.

## Findings

| source | as written | input that shows it | evidently intended | confidence | as-written member | corrected member |
|---|---|---|---|---|---|---|
| Movilidad/Servidor/controller.py:32-34 | each motor key under a port is passed to `getMotor` as a global logical number | ports A and B, each with motor "1": {kp: …}; B's value lands on controller 0 (A's motor 1) and B's controller keeps kp 0 | key "1"/"2" configures slot 1/2 of that port's own controller (the loop is "per COM and its motors", and the error message names the COM) | medium, not executed | Config.LoadResolvesKeysGlobally | Config.LoadPerPort |

/**
 * One board connection (`Controller` in the controller module): its two
 * motors and one pass of the poll/push loop, with the serial port replaced by
 * the bytes written and the bytes read.
 */
module Link {
  import opened Wrappers
  import opened Codec
  import opened MotorState

  /** Baud rate used when none is given. */
  const DefaultBaud: nat := 1000000

  datatype Controller = Controller(com: string, baud: nat, m1: Motor, m2: Motor, running: bool) {

    /** `motors[s]`, s = 0 for m1 and 1 for m2. */
    function Slot(s: nat): Motor
      requires s < 2
    {
      if s == 0 then m1 else m2
    }

    function WithSlot(s: nat, m: Motor): (r: Controller)
      requires s < 2
      ensures r.Slot(s) == m && r.Slot(1 - s) == Slot(1 - s)
      ensures r.com == com && r.baud == baud && r.running == running
    {
      if s == 0 then this.(m1 := m) else this.(m2 := m)
    }

    /** Number of motors whose parameters still wait to be pushed. */
    function Pending(): nat {
      (if m1.update then 1 else 0) + (if m2.update then 1 else 0)
    }
  }

  /** A controller as registered and started: two fresh motors, run flag on. */
  function NewController(com: string, baud: nat): (c: Controller)
    ensures c.com == com && c.baud == baud && c.running
    ensures c.m1 == Fresh && c.m2 == Fresh && c.Pending() == 0
  {
    Controller(com, baud, Fresh, Fresh, true)
  }

  /** The controller after a push, and the frame written. */
  datatype Push = Push(controller: Controller, frame: seq<Byte>)

  /**
   * `Controller.sendParams`: motor 1 is sent (slot number 1) when its flag is
   * up, otherwise motor 2 (slot number 2); only the sent motor's flag drops.
   */
  function SendParams(fmt: FloatFormat, c: Controller): (r: Push)
    requires Wellformed(fmt)
    ensures var slot := if c.m1.update then 1 else 2;
            var sent := c.Slot(slot - 1);
            && ParseRequest(r.frame) == Some(Request(slot,
                 fmt.packSingle(sent.params.setPoint), fmt.packSingle(sent.params.kp),
                 fmt.packSingle(sent.params.ki), fmt.packDouble(sent.params.kd)))
            && r.controller == c.WithSlot(slot - 1, sent.(update := false))
  {
    if c.m1.update then
      var frame := EncodeRequest(fmt, 1, GetParams(c.m1));
      RequestRoundTrip(fmt, 1, GetParams(c.m1));
      Push(c.(m1 := c.m1.(update := false)), frame)
    else
      var frame := EncodeRequest(fmt, 2, GetParams(c.m2));
      RequestRoundTrip(fmt, 2, GetParams(c.m2));
      Push(c.(m2 := c.m2.(update := false)), frame)
  }

  /**
   * `Controller.recieveParams` after the '$' poll: a reply of exactly 48
   * bytes refreshes both motors, motor 1 from bytes 0..24 and motor 2 from
   * 24..48; a reply of any other length is dropped.
   */
  function ReceiveParams(fmt: FloatFormat, c: Controller, reply: seq<Byte>): (r: Controller)
    ensures |reply| == ReplyLength ==>
              && (forall k :: 0 <= k < 6 ==> GetValues(r.m1)[k] == fmt.unpackSingle(reply[4 * k..4 * k + 4]))
              && (forall k :: 0 <= k < 6 ==> GetValues(r.m2)[k] == fmt.unpackSingle(reply[24 + 4 * k..24 + 4 * k + 4]))
    ensures |reply| != ReplyLength ==> r.m1.telemetry == c.m1.telemetry && r.m2.telemetry == c.m2.telemetry
    ensures r.m1.params == c.m1.params && r.m2.params == c.m2.params
    ensures r.m1.update == c.m1.update && r.m2.update == c.m2.update
    ensures r.com == c.com && r.baud == c.baud && r.running == c.running
  {
    if |reply| == ReplyLength then
      var first, second := reply[0..24], reply[24..48];
      assert forall k :: 0 <= k < 6 ==> first[4 * k..4 * k + 4] == reply[4 * k..4 * k + 4] by {
        forall k | 0 <= k < 6 {
          SliceOfSlice(reply, 0, 24, 4 * k, 4 * k + 4);
        }
      }
      assert forall k :: 0 <= k < 6 ==> second[4 * k..4 * k + 4] == reply[24 + 4 * k..24 + 4 * k + 4] by {
        forall k | 0 <= k < 6 {
          SliceOfSlice(reply, 24, 48, 4 * k, 4 * k + 4);
        }
      }
      c.(m1 := UpdateValues(fmt, c.m1, first), m2 := UpdateValues(fmt, c.m2, second))
    else c
  }

  /** The controller after one loop pass, and every write in order. */
  datatype Cycle = Cycle(controller: Controller, written: seq<seq<Byte>>)

  /**
   * One pass of `requestLoop`: if either flag is up, push one motor; then
   * always poll with '$' and apply the reply. A stopped controller's loop has
   * exited and writes nothing.
   */
  function Iterate(fmt: FloatFormat, c: Controller, reply: seq<Byte>): (r: Cycle)
    requires Wellformed(fmt)
    ensures !c.running ==> r == Cycle(c, [])
    ensures c.running && c.Pending() == 0 ==> r.written == [[PollMarker]]
    ensures c.running && c.Pending() > 0 ==>
              |r.written| == 2 && r.written[1] == [PollMarker] && ParseRequest(r.written[0]).Some?
    ensures c.running ==> r.controller.Pending() == if c.Pending() > 0 then c.Pending() - 1 else 0
    ensures c.running && c.Pending() > 0 ==>
              var slot := if c.m1.update then 1 else 2;
              var sent := c.Slot(slot - 1);
              && ParseRequest(r.written[0]) == Some(Request(slot,
                   fmt.packSingle(sent.params.setPoint), fmt.packSingle(sent.params.kp),
                   fmt.packSingle(sent.params.ki), fmt.packDouble(sent.params.kd)))
              && !r.controller.Slot(slot - 1).update
              && r.controller.Slot(2 - slot).update == c.Slot(2 - slot).update
    ensures c.running && |reply| == ReplyLength ==>
              && (forall k :: 0 <= k < 6 ==> GetValues(r.controller.m1)[k] == fmt.unpackSingle(reply[4 * k..4 * k + 4]))
              && (forall k :: 0 <= k < 6 ==> GetValues(r.controller.m2)[k] == fmt.unpackSingle(reply[24 + 4 * k..24 + 4 * k + 4]))
    ensures !c.running || |reply| != ReplyLength ==>
              r.controller.m1.telemetry == c.m1.telemetry && r.controller.m2.telemetry == c.m2.telemetry
    ensures r.controller.m1.params == c.m1.params && r.controller.m2.params == c.m2.params
    ensures r.controller.com == c.com && r.controller.baud == c.baud && r.controller.running == c.running
  {
    if !c.running then Cycle(c, [])
    else if c.m1.update || c.m2.update then
      var push := SendParams(fmt, c);
      Cycle(ReceiveParams(fmt, push.controller, reply), [push.frame, [PollMarker]])
    else
      Cycle(ReceiveParams(fmt, c, reply), [[PollMarker]])
  }

  /** Without new writes, both pending motors are pushed within two passes, motor 1 first. */
  lemma TwoPassesDrain(fmt: FloatFormat, c: Controller, reply1: seq<Byte>, reply2: seq<Byte>)
    requires Wellformed(fmt)
    requires c.running && c.m1.update && c.m2.update
    ensures var first := Iterate(fmt, c, reply1);
            var second := Iterate(fmt, first.controller, reply2);
            && ParseRequest(first.written[0]).value.slot == 1
            && ParseRequest(second.written[0]).value.slot == 2
            && second.controller.Pending() == 0
            && second.controller.m1.params == c.m1.params
            && second.controller.m2.params == c.m2.params
  {
  }
}

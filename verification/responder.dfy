/** The I2C chat responder: a bus peripheral that lets the bus controller read
    what was typed on the local serial console, and prints on that console
    whatever the controller writes with the pass-through command.

    The three entry points of the sketch — the bus receive handler `recv`, the
    bus request handler `req` and the main `loop` — become pure functions from
    the current globals and the bytes the hardware offers to the new globals
    and the bytes written to the local serial port and to the bus. Each
    handler invocation is one atomic event. */
module Responder {
  import opened Bytes

  /** The sketch's globals: `mode` (a plain `int`), the pending outgoing
      message `msg` and the local line accumulator `input`. */
  datatype Responder = Responder(mode: int, msg: seq<byte>, input: seq<byte>)

  /** The globals at power-on: `mode` is zero-initialised, both strings are empty. */
  const Init: Responder := Responder(0, [], [])

  /** What one handler leaves behind: the new globals and the bytes it wrote
      to the local serial port and to the bus, in order. */
  datatype Outcome = Outcome(next: Responder, serial: seq<byte>, bus: seq<byte>)

  /** The bus request handler only ever finds mode 0 (send the length) or
      mode 1 (send the payload). */
  predicate ValidMode(r: Responder) {
    r.mode == 0 || r.mode == 1
  }

  /** `recv`: the controller wrote `data` to the bus. Only the first byte is a
      command; with no byte at all the read yields -1, which is no command. */
  function Recv(r: Responder, data: seq<byte>): (o: Outcome)
    ensures o.bus == [] && o.next.msg == r.msg && o.next.input == r.input
    ensures |data| > 0 && data[0] <= 1 ==> o.next.mode == data[0] as int && o.serial == []
    ensures |data| > 0 && data[0] == 2 ==> o.next == r && o.serial == data[1..]
    ensures (|data| == 0 || data[0] > 2) ==> o == Outcome(r, [], [])
    ensures ValidMode(r) ==> ValidMode(o.next)
  {
    if |data| == 0 then Outcome(r, [], [])
    else if data[0] == 0 then Outcome(r.(mode := 0), [], [])
    else if data[0] == 1 then Outcome(r.(mode := 1), [], [])
    else if data[0] == 2 then Outcome(r, data[1..], [])
    else Outcome(r, [], [])
  }

  /** `req`: the controller reads from the bus. Mode 0 answers with the
      message length cut to one byte; mode 1 answers with the message and
      forgets it; any other mode answers nothing. */
  function Req(r: Responder): (o: Outcome)
    ensures o.serial == [] && o.next.mode == r.mode && o.next.input == r.input
    ensures r.mode == 0 ==> |o.bus| == 1 && o.bus[0] as int == |r.msg| % 256 && o.next.msg == r.msg
    ensures r.mode == 1 ==> o.bus == r.msg && o.next.msg == []
    ensures !ValidMode(r) ==> o == Outcome(r, [], [])
  {
    if r.mode == 0 then Outcome(r, [], [(|r.msg| % 256) as byte])
    else if r.mode == 1 then Outcome(r.(msg := []), [], r.msg)
    else Outcome(r, [], [])
  }

  /** One pass of the serial-draining loop in `loop` for the byte `c`. */
  function Step(r: Responder, c: byte): Outcome {
    var next := r.(msg := r.msg + [c], input := r.input + [c]);
    if c == LF then Outcome(next.(input := []), MePrefix + next.input, [])
    else Outcome(next, [], [])
  }

  /** `loop`: drains the bytes `s` waiting on the local serial port, one
      `Step` per byte, in order. Every typed byte, newlines included, joins
      the outgoing message, and a line accumulator free of newlines stays
      free of them once the loop is done. */
  function Poll(r: Responder, s: seq<byte>): (o: Outcome)
    ensures o.bus == [] && o.next.mode == r.mode
    ensures o.next.msg == r.msg + s
    ensures LF !in r.input ==> LF !in o.next.input
    decreases |s|
  {
    if |s| == 0 then Outcome(r, [], [])
    else
      var first := Step(r, s[0]);
      var rest := Poll(first.next, s[1..]);
      assert s == [s[0]] + s[1..];
      Outcome(rest.next, first.serial + rest.serial, [])
  }

  /** Reference for the local echo, line by line: every complete line of `s`
      is printed after "me: ", newline included, the first one preceded by
      what was already `pending` from earlier polls. */
  function Echoes(pending: seq<byte>, s: seq<byte>): seq<byte>
    decreases |s|
  {
    if LF !in s then []
    else
      var k := FirstNewline(s);
      MePrefix + pending + s[..k + 1] + Echoes([], s[k + 1..])
  }

  /** Polling `a` and then `b` is the same as polling `a + b` at once. */
  lemma {:induction false} PollConcat(r: Responder, a: seq<byte>, b: seq<byte>)
    ensures var first := Poll(r, a);
            var second := Poll(first.next, b);
            Poll(r, a + b) == Outcome(second.next, first.serial + second.serial, [])
    decreases |a|
  {
    if |a| > 0 {
      var step := Step(r, a[0]);
      assert (a + b)[0] == a[0] && (a + b)[1..] == a[1..] + b;
      PollConcat(step.next, a[1..], b);
      var mid := Poll(step.next, a[1..]);
      var second := Poll(mid.next, b);
      assert Poll(r, a).next == mid.next;
      assert Poll(r, a).serial == step.serial + mid.serial;
      assert Poll(r, a + b).serial == step.serial + (mid.serial + second.serial);
    } else {
      assert a + b == b;
    }
  }

  /** Bytes without a newline are accumulated and echo nothing. */
  lemma {:induction false} PollWithoutNewline(r: Responder, s: seq<byte>)
    requires LF !in s
    ensures Poll(r, s) == Outcome(r.(msg := r.msg + s, input := r.input + s), [], [])
    decreases |s|
  {
    if |s| > 0 {
      assert s == [s[0]] + s[1..];
      PollWithoutNewline(Step(r, s[0]).next, s[1..]);
    }
  }

  /** A newline echoes "me: " and every byte since the previous echo, that
      newline included, and empties the line accumulator. */
  lemma PollLine(r: Responder, t: seq<byte>)
    requires LF !in t
    ensures Poll(r, t + [LF]) ==
            Outcome(r.(msg := r.msg + t + [LF], input := []), MePrefix + r.input + t + [LF], [])
  {
    PollConcat(r, t, [LF]);
    PollWithoutNewline(r, t);
  }

  /** The byte-by-byte loop echoes exactly the line-by-line reference. */
  lemma {:induction false} PollEchoesLines(r: Responder, s: seq<byte>)
    ensures Poll(r, s).serial == Echoes(r.input, s)
    decreases |s|
  {
    if LF !in s {
      PollWithoutNewline(r, s);
    } else {
      var k := FirstNewline(s);
      var line, rest := s[..k + 1], s[k + 1..];
      assert s == line + rest;
      assert line == s[..k] + [LF];
      PollConcat(r, line, rest);
      PollLine(r, s[..k]);
      var mid := Poll(r, line).next;
      PollEchoesLines(mid, rest);
    }
  }

  /** After a poll the line accumulator holds exactly the bytes typed after
      the last newline, or, without a newline, its old contents plus `s`. */
  lemma PollLeavesLastLine(r: Responder, s: seq<byte>)
    ensures LF !in s ==> Poll(r, s).next.input == r.input + s
    ensures LF in s ==> Poll(r, s).next.input == s[LastNewline(s) + 1..]
  {
    if LF !in s {
      PollWithoutNewline(r, s);
    } else {
      var j := PollLeavesSomeLastLine(r, s);
      assert j == LastNewline(s);
    }
  }

  /** Proof step of the above, by induction: some newline, followed by no
      other, ends the bytes the accumulator no longer holds. */
  lemma {:induction false} PollLeavesSomeLastLine(r: Responder, s: seq<byte>) returns (k: nat)
    requires LF in s
    ensures k < |s| && s[k] == LF && LF !in s[k + 1..] && Poll(r, s).next.input == s[k + 1..]
    decreases |s|
  {
    k := FirstNewline(s);
    var line, rest := s[..k + 1], s[k + 1..];
    assert s == line + rest;
    assert line == s[..k] + [LF];
    PollConcat(r, line, rest);
    PollLine(r, s[..k]);
    if LF in rest {
      var j := PollLeavesSomeLastLine(Poll(r, line).next, rest);
      assert s[k + 1 + j] == LF && s[k + 1 + j + 1..] == rest[j + 1..];
      k := k + 1 + j;
    } else {
      PollWithoutNewline(Poll(r, line).next, rest);
    }
  }

  /** A second payload read in a row finds nothing left to send. */
  lemma SecondPayloadReadIsEmpty(r: Responder)
    requires r.mode == 1
    ensures Req(r).bus == r.msg && Req(Req(r).next).bus == []
  {
  }

  /** One atomic handler invocation, as the hardware delivers it. */
  datatype Event =
    | Receive(data: seq<byte>)   // the controller writes `data`
    | Request                    // the controller reads
    | Typed(bytes: seq<byte>)    // one `loop` finds `bytes` on the local serial port

  /** Runs the handler that `e` triggers. */
  function Apply(r: Responder, e: Event): (o: Outcome)
    ensures ValidMode(r) ==> ValidMode(o.next)
    ensures LF !in r.input ==> LF !in o.next.input
  {
    match e
    case Receive(data) => Recv(r, data)
    case Request => Req(r)
    case Typed(bytes) => Poll(r, bytes)
  }

  /** Runs the events in order, collecting everything written to the local
      serial port and to the bus. */
  function Run(r: Responder, events: seq<Event>): (o: Outcome)
    ensures ValidMode(r) ==> ValidMode(o.next)
    ensures LF !in r.input ==> LF !in o.next.input
    decreases |events|
  {
    if |events| == 0 then Outcome(r, [], [])
    else
      var first := Apply(r, events[0]);
      var rest := Run(first.next, events[1..]);
      Outcome(rest.next, first.serial + rest.serial, first.bus + rest.bus)
  }

  /** From power-on, `mode` is 0 or 1 whatever the controller and the console do. */
  lemma ModeAlwaysValid(events: seq<Event>)
    ensures ValidMode(Run(Init, events).next)
    ensures LF !in Run(Init, events).next.input
  {
  }

  /** No bus write in `events` is a pass-through to the console. */
  predicate NoPassThrough(events: seq<Event>) {
    forall i :: 0 <= i < |events| ==>
      !(events[i].Receive? && |events[i].data| > 0 && events[i].data[0] == 2)
  }

  /** Across `loop` calls and bus events the line accumulator carries over
      and lines are echoed in order: without pass-through writes, the console
      output of any sequence of events is the line-by-line echo of
      everything typed. */
  lemma {:induction false} RunEchoesLines(r: Responder, events: seq<Event>)
    requires NoPassThrough(events)
    ensures Run(r, events).serial == Echoes(r.input, TypedBytes(events))
    decreases |events|
  {
    if |events| > 0 {
      var e := events[0];
      var first := Apply(r, e);
      var t := TypedBytes(events[1..]);
      assert NoPassThrough(events[1..]) by {
        forall i | 0 <= i < |events[1..]|
          ensures !(events[1..][i].Receive? && |events[1..][i].data| > 0 && events[1..][i].data[0] == 2)
        {
          assert events[1..][i] == events[i + 1];
        }
      }
      RunEchoesLines(first.next, events[1..]);
      assert Run(r, events).serial == first.serial + Run(first.next, events[1..]).serial;
      assert !(e.Receive? && |e.data| > 0 && e.data[0] == 2) by { assert e == events[0]; }
      match e
      case Typed(bytes) =>
        PollConcat(r, bytes, t);
        PollEchoesLines(r, bytes + t);
        PollEchoesLines(first.next, t);
      case Receive(data) =>
        assert first == Recv(r, data);
        assert first.serial == [] && first.next.input == r.input;
        assert TypedBytes(events) == t;
        assert Run(r, events).serial == Run(first.next, events[1..]).serial;
      case Request =>
        assert first == Req(r);
        assert first.serial == [] && first.next.input == r.input;
        assert TypedBytes(events) == t;
        assert Run(r, events).serial == Run(first.next, events[1..]).serial;
    }
  }

  /** What one event hands to the controller as payload. */
  function DeliveredBy(r: Responder, e: Event): seq<byte> {
    if e.Request? && r.mode == 1 then Apply(r, e).bus else []
  }

  /** What one event brings in from the console. */
  function TypedBy(e: Event): seq<byte> {
    if e.Typed? then e.bytes else []
  }

  /** All bytes typed on the console over the events. */
  function TypedBytes(events: seq<Event>): seq<byte>
    decreases |events|
  {
    if |events| == 0 then [] else TypedBy(events[0]) + TypedBytes(events[1..])
  }

  /** The payload handed to the controller by the reads made in mode 1. */
  function Delivered(r: Responder, events: seq<Event>): seq<byte>
    decreases |events|
  {
    if |events| == 0 then []
    else DeliveredBy(r, events[0]) + Delivered(Apply(r, events[0]).next, events[1..])
  }

  /** One event moves bytes only from the console into the message and from
      the message onto the bus. */
  lemma EventConservesBytes(r: Responder, e: Event)
    ensures DeliveredBy(r, e) + Apply(r, e).next.msg == r.msg + TypedBy(e)
  {
  }

  /** Reassociation step of the conservation proof. */
  lemma Regroup(dl: seq<byte>, d: seq<byte>, p: seq<byte>, m: seq<byte>, t: seq<byte>, r: seq<byte>, ty: seq<byte>)
    requires d + p == m + t && dl + m == r + ty
    ensures (dl + d) + p == r + (ty + t)
  {
    assert (dl + d) + p == dl + (m + t) == (dl + m) + t;
  }

  /** No typed byte is lost or sent twice: what the payload reads delivered,
      followed by what is still pending, is the old message followed by
      everything typed, in order. */
  lemma {:induction false} EveryTypedByteDeliveredOnce(r: Responder, events: seq<Event>)
    ensures Delivered(r, events) + Run(r, events).next.msg == r.msg + TypedBytes(events)
    decreases |events|
  {
    if |events| > 0 {
      var e := events[0];
      var next := Apply(r, e).next;
      EveryTypedByteDeliveredOnce(next, events[1..]);
      EventConservesBytes(r, e);
      var dl, ty := DeliveredBy(r, e), TypedBy(e);
      var d, t := Delivered(next, events[1..]), TypedBytes(events[1..]);
      var pending := Run(r, events).next.msg;
      assert pending == Run(next, events[1..]).next.msg;
      assert Delivered(r, events) == dl + d;
      assert TypedBytes(events) == ty + t;
      Regroup(dl, d, pending, next.msg, t, r.msg, ty);
    }
  }

  /** Typing "hi" and a newline echoes "me: hi\n"; the controller then probes
      the length 3 and reads the payload "hi\n", after which nothing is pending. */
  lemma HiScenario()
    ensures var hi: seq<byte> := [104, 105, LF];
            var o := Run(Init, [Typed(hi), Receive([0]), Request, Receive([1]), Request]);
            o.serial == MePrefix + hi && o.bus == [3] + hi && o.next.msg == []
  {
    var hi: seq<byte> := [104, 105, LF];
    PollLine(Init, [104, 105]);
    assert [104, 105] + [LF] == hi;
    var typed := Poll(Init, hi);
    assert typed.next == Responder(0, hi, []) && typed.serial == MePrefix + hi;
    var s1 := typed.next;
    var s2 := Recv(s1, [0]).next;
    assert s2 == s1;
    var s3 := Req(s2);
    assert s3.bus == [3] && s3.next == s1;
    var s4 := Recv(s1, [1]).next;
    assert s4 == Responder(1, hi, []);
    var s5 := Req(s4);
    assert s5.bus == hi && s5.next == Responder(1, [], []);
    var events := [Typed(hi), Receive([0]), Request, Receive([1]), Request];
    assert Run(s4, events[4..]) == Outcome(s5.next, [], hi);
    assert Run(s1, events[3..]) == Outcome(s5.next, [], hi);
    assert Run(s1, events[2..]) == Outcome(s5.next, [], [3] + hi);
    assert Run(s1, events[1..]) == Outcome(s5.next, [], [3] + hi);
  }
}

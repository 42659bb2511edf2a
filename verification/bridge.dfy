/** The serial bridge: relays bytes between the primary serial port (the
    console) and a second, bit-banged serial port. Bytes arriving on the
    second port are copied to the console; bytes typed on the console are
    forwarded to the second port and, line by line, echoed back after "me: ".

    One pass of the sketch's `loop` becomes a pure function from the current
    line buffer and the bytes waiting on each port to the new line buffer and
    the bytes written to each port. */
module Bridge {
  import opened Bytes

  /** The sketch's one global: the line typed so far, `current_msg`. */
  datatype Bridge = Bridge(currentMsg: seq<byte>)

  /** At power-on the line buffer is empty. */
  const Init: Bridge := Bridge([])

  /** What one pass leaves behind: the new line buffer and the bytes written
      to the primary port and to the second port, in order. */
  datatype Outcome = Outcome(next: Bridge, primary: seq<byte>, secondary: seq<byte>)

  /** One pass of the console-draining loop for the byte `c`. After a
      newline the buffer restarts as a single space, not as the empty line. */
  function Step(b: Bridge, c: byte): Outcome {
    if c == LF then Outcome(Bridge([Space]), MePrefix + b.currentMsg + [CR, LF], [c])
    else Outcome(Bridge(b.currentMsg + [c]), [], [c])
  }

  /** The console-draining loop: one `Step` per typed byte, in order. Every
      typed byte, newline included, goes out on the second port unchanged,
      and the line buffer never takes in a newline. */
  function Drain(b: Bridge, s: seq<byte>): (o: Outcome)
    ensures o.secondary == s
    ensures LF !in b.currentMsg ==> LF !in o.next.currentMsg
    decreases |s|
  {
    if |s| == 0 then Outcome(b, [], [])
    else
      var first := Step(b, s[0]);
      var rest := Drain(first.next, s[1..]);
      assert s == [s[0]] + s[1..];
      Outcome(rest.next, first.primary + rest.primary, first.secondary + rest.secondary)
  }

  /** `loop`: first copies what waits on the second port to the console,
      then drains the console. */
  function Loop(b: Bridge, fromSecondary: seq<byte>, fromPrimary: seq<byte>): (o: Outcome)
    ensures |o.primary| >= |fromSecondary| && o.primary[..|fromSecondary|] == fromSecondary
    ensures o.secondary == fromPrimary
    ensures LF !in b.currentMsg ==> LF !in o.next.currentMsg
    ensures o.next == Drain(b, fromPrimary).next
  {
    var typed := Drain(b, fromPrimary);
    assert (fromSecondary + typed.primary)[..|fromSecondary|] == fromSecondary;
    Outcome(typed.next, fromSecondary + typed.primary, typed.secondary)
  }

  /** Reference for the console echo, line by line: every complete line of
      `s` is printed after "me: " and ended with "\r\n", the first one
      preceded by the `pending` buffer and every later one by a space. */
  function Echoes(pending: seq<byte>, s: seq<byte>): seq<byte>
    decreases |s|
  {
    if LF !in s then []
    else
      var k := FirstNewline(s);
      MePrefix + pending + s[..k] + [CR, LF] + Echoes([Space], s[k + 1..])
  }

  /** Draining `a` and then `c` is the same as draining `a + c` at once. */
  lemma {:induction false} DrainConcat(b: Bridge, a: seq<byte>, c: seq<byte>)
    ensures var first := Drain(b, a);
            var second := Drain(first.next, c);
            Drain(b, a + c) == Outcome(second.next, first.primary + second.primary, a + c)
    decreases |a|
  {
    if |a| > 0 {
      var step := Step(b, a[0]);
      assert (a + c)[0] == a[0] && (a + c)[1..] == a[1..] + c;
      DrainConcat(step.next, a[1..], c);
      var mid := Drain(step.next, a[1..]);
      var second := Drain(mid.next, c);
      assert Drain(b, a).next == mid.next;
      assert Drain(b, a).primary == step.primary + mid.primary;
      assert Drain(b, a + c).primary == step.primary + (mid.primary + second.primary);
    } else {
      assert a + c == c;
    }
  }

  /** Bytes without a newline are appended to the buffer and print nothing
      on the console. */
  lemma {:induction false} DrainWithoutNewline(b: Bridge, s: seq<byte>)
    requires LF !in s
    ensures Drain(b, s) == Outcome(Bridge(b.currentMsg + s), [], s)
    decreases |s|
  {
    if |s| > 0 {
      assert s == [s[0]] + s[1..];
      DrainWithoutNewline(Step(b, s[0]).next, s[1..]);
    }
  }

  /** A newline prints "me: ", the buffer and "\r\n" on the console and
      restarts the buffer as a single space. */
  lemma DrainLine(b: Bridge, t: seq<byte>)
    requires LF !in t
    ensures Drain(b, t + [LF]) ==
            Outcome(Bridge([Space]), MePrefix + b.currentMsg + t + [CR, LF], t + [LF])
  {
    DrainConcat(b, t, [LF]);
    DrainWithoutNewline(b, t);
  }

  /** The byte-by-byte loop echoes exactly the line-by-line reference, and
      the console sees the second port's bytes first, unchanged. */
  lemma {:induction false} LoopEchoesLines(b: Bridge, fromSecondary: seq<byte>, s: seq<byte>)
    ensures Drain(b, s).primary == Echoes(b.currentMsg, s)
    ensures Loop(b, fromSecondary, s).primary == fromSecondary + Echoes(b.currentMsg, s)
    decreases |s|
  {
    if LF !in s {
      DrainWithoutNewline(b, s);
    } else {
      var k := FirstNewline(s);
      var line, rest := s[..k + 1], s[k + 1..];
      assert s == line + rest;
      assert line == s[..k] + [LF];
      DrainConcat(b, line, rest);
      DrainLine(b, s[..k]);
      LoopEchoesLines(Bridge([Space]), fromSecondary, rest);
    }
  }

  /** Once a newline was typed the buffer starts with a space, and it keeps
      starting with one. */
  lemma {:induction false} DrainStartsWithSpace(b: Bridge, s: seq<byte>)
    requires LF in s || (|b.currentMsg| > 0 && b.currentMsg[0] == Space)
    ensures var m := Drain(b, s).next.currentMsg; |m| > 0 && m[0] == Space
    decreases |s|
  {
    if |s| > 0 {
      assert s == [s[0]] + s[1..];
      DrainStartsWithSpace(Step(b, s[0]).next, s[1..]);
    }
  }

  /** Every line after the first is echoed with a leading space: typing "A",
      newline, "B", newline prints "me: A\r\n" and then "me:  B\r\n". */
  lemma SecondLineGetsLeadingSpace()
    ensures Drain(Init, [65, LF, 66, LF]).primary ==
            MePrefix + [65, CR, LF] + MePrefix + [Space, 66, CR, LF]
  {
    var s: seq<byte> := [65, LF, 66, LF];
    DrainConcat(Init, [65, LF], [66, LF]);
    assert s == [65, LF] + [66, LF];
    DrainLine(Init, [65]);
    DrainLine(Bridge([Space]), [66]);
    assert [65] + [LF] == [65, LF];
    assert [66] + [LF] == [66, LF];
  }

  /** What both ports offer to one pass of `loop`. */
  datatype Pass = Pass(fromSecondary: seq<byte>, fromPrimary: seq<byte>)

  /** Runs the passes in order, collecting what each port was sent. */
  function Run(b: Bridge, passes: seq<Pass>): (o: Outcome)
    ensures LF !in b.currentMsg ==> LF !in o.next.currentMsg
    decreases |passes|
  {
    if |passes| == 0 then Outcome(b, [], [])
    else
      var first := Loop(b, passes[0].fromSecondary, passes[0].fromPrimary);
      var rest := Run(first.next, passes[1..]);
      Outcome(rest.next, first.primary + rest.primary, first.secondary + rest.secondary)
  }

  /** Some pass offered a newline on the console. */
  predicate NewlineTyped(passes: seq<Pass>) {
    exists i :: 0 <= i < |passes| && LF in passes[i].fromPrimary
  }

  /** From power-on the buffer never holds a newline, and after the first
      typed newline it always starts with a space. */
  lemma {:induction false} BufferInvariant(b: Bridge, passes: seq<Pass>)
    requires LF !in b.currentMsg
    ensures LF !in Run(b, passes).next.currentMsg
    ensures NewlineTyped(passes) || (|b.currentMsg| > 0 && b.currentMsg[0] == Space) ==>
              var m := Run(b, passes).next.currentMsg; |m| > 0 && m[0] == Space
    decreases |passes|
  {
    if |passes| > 0 {
      var p := passes[0];
      var next := Loop(b, p.fromSecondary, p.fromPrimary).next;
      BufferInvariant(next, passes[1..]);
      if NewlineTyped(passes) || (|b.currentMsg| > 0 && b.currentMsg[0] == Space) {
        if LF in p.fromPrimary || (|b.currentMsg| > 0 && b.currentMsg[0] == Space) {
          DrainStartsWithSpace(b, p.fromPrimary);
        } else {
          var i :| 0 <= i < |passes| && LF in passes[i].fromPrimary;
          assert i > 0 && passes[1..][i - 1] == passes[i];
        }
      }
    }
  }

  /** Every typed byte reaches the second port: over any sequence of passes,
      the second port receives exactly the console's bytes, in order. */
  lemma {:induction false} RunForwardsConsole(b: Bridge, passes: seq<Pass>)
    ensures Run(b, passes).secondary == ConsoleBytes(passes)
    decreases |passes|
  {
    if |passes| > 0 {
      RunForwardsConsole(Loop(b, passes[0].fromSecondary, passes[0].fromPrimary).next, passes[1..]);
    }
  }

  /** All bytes typed on the console over the passes. */
  function ConsoleBytes(passes: seq<Pass>): seq<byte>
    decreases |passes|
  {
    if |passes| == 0 then [] else passes[0].fromPrimary + ConsoleBytes(passes[1..])
  }

  /** The second port's bytes never reach the line buffer: after any sequence
      of passes the buffer is what draining all typed bytes at once leaves. */
  lemma {:induction false} RunBufferFollowsConsole(b: Bridge, passes: seq<Pass>)
    ensures Run(b, passes).next == Drain(b, ConsoleBytes(passes)).next
    decreases |passes|
  {
    if |passes| > 0 {
      var p := passes[0];
      RunBufferFollowsConsole(Drain(b, p.fromPrimary).next, passes[1..]);
      DrainConcat(b, p.fromPrimary, ConsoleBytes(passes[1..]));
    }
  }

  /** No pass brings bytes in from the second port. */
  predicate SecondPortQuiet(passes: seq<Pass>) {
    forall i :: 0 <= i < |passes| ==> passes[i].fromSecondary == []
  }

  /** Across passes the buffer carries over and lines are echoed in order:
      with the second port quiet, the console output of any sequence of
      passes is the line-by-line echo of everything typed. */
  lemma {:induction false} RunEchoesLines(b: Bridge, passes: seq<Pass>)
    requires SecondPortQuiet(passes)
    ensures Run(b, passes).primary == Echoes(b.currentMsg, ConsoleBytes(passes))
    decreases |passes|
  {
    if |passes| > 0 {
      var p := passes[0];
      var first := Drain(b, p.fromPrimary);
      var rest := ConsoleBytes(passes[1..]);
      assert passes[0].fromSecondary == [];
      assert SecondPortQuiet(passes[1..]) by {
        forall i | 0 <= i < |passes[1..]| ensures passes[1..][i].fromSecondary == [] {
          assert passes[1..][i] == passes[i + 1];
        }
      }
      RunEchoesLines(first.next, passes[1..]);
      DrainConcat(b, p.fromPrimary, rest);
      LoopEchoesLines(b, [], p.fromPrimary + rest);
      LoopEchoesLines(b, [], p.fromPrimary);
      LoopEchoesLines(first.next, [], rest);
      assert Run(b, passes).primary == first.primary + Run(first.next, passes[1..]).primary;
    }
  }
}

# Arduino chat sketches, modelled in Dafny

Two small Arduino sketches relay text between a serial console and a second
transport:

- **I2C chat responder** (`i2c-chat-slave.cpp`). It is a bus peripheral. The
  bus controller writes one-byte commands that choose what the next bus read
  returns: the length of the pending outgoing message (mode 0) or the message
  itself, which is then cleared (mode 1). A write that starts with 2 is passed
  through to the local console. Every byte typed on the console joins the
  outgoing message. Each complete typed line is echoed locally after `"me: "`.
- **Serial bridge** (`serial-chat.cpp`). It copies bytes from a second serial
  port to the console. It forwards every typed byte to the second port. It
  echoes each typed line as `"me: " + line + "\r\n"`. After the first line,
  the line buffer restarts as a single space. That quirk is kept, so every
  later echo carries an extra leading space (`Bridge.SecondLineGetsLeadingSpace`).

The hardware is replaced by explicit inputs and outputs. Each handler is a
pure function from the sketch's globals and the bytes the hardware offers to
the new globals and the bytes written to each port. Every handler invocation
is one atomic event. The files are:

- `bytes.dfy`: the `byte` type, the ASCII constants and the first-newline search.
- `responder.dfy`: the responder's `recv`, `req` and `loop`, plus traces of events.
- `bridge.dfy`: the bridge's `loop` and traces of passes.

The console loops are modelled byte by byte, as the sketches run them. Each
one has an independent line-by-line reference (`Echoes`), and a lemma proves
the two agree.

Some behaviours of the code that are easy to misread:

- A mode-select write may be longer than one byte; only its first byte is
  examined, and any trailing bytes have no effect.
- The length probe answers the length cut to one byte, `length mod 256`.
- No third "pass-through" mode is ever stored. A write starting with 2
  prints its payload at once and leaves `mode` unchanged. As a result, `mode`
  is always 0 or 1 (`Responder.ModeAlwaysValid`).
- A bus write with no bytes at all reads -1, which is not a command, so it
  has no effect.

## Model

| member | source | states |
|---|---|---|
| Responder.Recv | i2c-chat-slave.cpp:7-19 | only the first written byte matters: 0 or 1 selects that mode, 2 sends exactly the remaining bytes to the console in order, anything else (or no byte) changes nothing and prints nothing; the message, the line buffer and the bus are never touched, and a valid mode stays valid |
| Responder.Req | i2c-chat-slave.cpp:21-28 | in mode 0 the bus gets exactly one byte, the message length mod 256, and the message is kept; in mode 1 the bus gets exactly the message bytes in order and the message becomes empty; in any other mode nothing happens |
| Responder.SecondPayloadReadIsEmpty | i2c-chat-slave.cpp:24-26 | two payload reads in a row: the first delivers the message, the second delivers nothing |
| Responder.Poll | i2c-chat-slave.cpp:40-51 | draining typed bytes `s` sets the message to the old message followed by `s`, newlines included; the mode is kept, nothing goes on the bus, and a line buffer free of newlines stays free of them |
| Responder.PollConcat | i2c-chat-slave.cpp:41-50 | draining `a` and then `b` in two polls has the same effect and output as draining `a + b` in one |
| Responder.PollWithoutNewline | i2c-chat-slave.cpp:41-44 | bytes without a newline are appended to both the message and the line buffer, and nothing is echoed |
| Responder.PollLine | i2c-chat-slave.cpp:43-49 | a newline echoes `"me: "` followed by all bytes since the previous echo, ending with that newline, and empties the line buffer |
| Responder.PollEchoesLines | i2c-chat-slave.cpp:40-51 | the console output of a poll equals the line-by-line reference: one `"me: "`-prefixed echo per typed newline, holding exactly the bytes since the previous echo |
| Responder.PollLeavesLastLine | i2c-chat-slave.cpp:44-48 | after a poll, the line buffer holds exactly the bytes typed after the last newline of `s`, or, if no newline was typed, its old contents followed by the new bytes |
| Responder.Apply | i2c-chat-slave.cpp:5-48 | no handler ever stores a mode other than 0 or 1, and no handler leaves a newline in a line buffer that had none |
| Responder.Run | i2c-chat-slave.cpp:5-48 | a mode of 0 or 1 stays 0 or 1, and a newline-free line buffer stays newline-free, over any sequence of bus writes, bus reads and typed input |
| Responder.ModeAlwaysValid | i2c-chat-slave.cpp:5-48 | from power-on (`mode` zero-initialised, `input` empty), after any sequence of events `mode` is 0 or 1 and the line buffer holds no newline |
| Responder.EventConservesBytes | i2c-chat-slave.cpp:21-43 | one event moves bytes only from the console into the message, or from the message onto the bus: what a payload read writes on the bus, followed by the new message, is the old message followed by what was typed |
| Responder.EveryTypedByteDeliveredOnce | i2c-chat-slave.cpp:21-43 | over any sequence of events, the bytes the payload reads actually wrote on the bus, followed by the bytes still pending, equal the old message followed by every typed byte, in order: nothing is lost, duplicated or reordered in the model, whose Wire buffer is unbounded (see ## Left out) |
| Responder.RunEchoesLines | i2c-chat-slave.cpp:38-49 | over any sequence of `loop` calls and non-pass-through bus events, the line buffer carries over between calls and the console output is the line-by-line echo of all typed bytes, in order: each newline echoes `"me: "` and every byte since the previous echo, across calls |
| Responder.HiScenario | i2c-chat-slave.cpp:21-49 | typing `"hi\n"` echoes `"me: hi\n"`; a length probe then answers 3, and a payload read answers `"hi\n"` and leaves nothing pending |
| Bridge.Drain | serial-chat.cpp:17-27 | every typed byte, newline included, goes to the second port unchanged and in order, and the line buffer never takes in a newline |
| Bridge.Loop | serial-chat.cpp:12-28 | the console output starts with exactly the bytes read from the second port, unchanged and in order, with nothing added; the second port receives exactly the typed bytes; the line buffer ends as draining the typed bytes alone leaves it, untouched by the second port's bytes |
| Bridge.DrainConcat | serial-chat.cpp:17-27 | draining `a` and then `c` in two passes has the same effect and output as draining `a + c` in one |
| Bridge.DrainWithoutNewline | serial-chat.cpp:23-26 | bytes without a newline are appended to the line buffer, print nothing on the console, and are forwarded to the second port |
| Bridge.DrainLine | serial-chat.cpp:19-22 | a newline prints exactly `"me: "`, the buffer and `"\r\n"` on the console, and restarts the buffer as a single space |
| Bridge.LoopEchoesLines | serial-chat.cpp:12-28 | the console output of a pass is the second port's bytes followed by the line-by-line reference echo: the first line after the old buffer, every later line after a space |
| Bridge.DrainStartsWithSpace | serial-chat.cpp:19-24 | after a typed newline the buffer starts with a space, and a buffer that starts with a space keeps starting with one |
| Bridge.SecondLineGetsLeadingSpace | serial-chat.cpp:19-22 | typing "A", newline, "B", newline from power-on prints `"me: A\r\n"` and then `"me:  B\r\n"`, the second with an extra space |
| Bridge.Run | serial-chat.cpp:5-24 | a buffer free of newlines stays free of them over any sequence of passes |
| Bridge.BufferInvariant | serial-chat.cpp:5-24 | over any sequence of passes, the buffer never holds a newline, and once any pass typed a newline it starts with a space |
| Bridge.RunForwardsConsole | serial-chat.cpp:17-26 | over any sequence of passes, the second port receives exactly the concatenation of all typed bytes |
| Bridge.RunBufferFollowsConsole | serial-chat.cpp:5-26 | over any sequence of passes, the line buffer is what draining all typed bytes at once leaves: the buffer carries over between passes and the second port's bytes never change it |
| Bridge.RunEchoesLines | serial-chat.cpp:12-28 | over any sequence of passes with nothing from the second port, the console output is the line-by-line echo of all typed bytes, in order, with the buffer carried from one pass to the next |

## Left out

- `setup()` in both sketches is left out. It sets baud rates, bus address 8, the pins of the second port and the handler registration. This is hardware configuration with no logic.
- The `Serial`, `Wire` and `SoftwareSerial` libraries are left out. They are replaced by input and output byte sequences. Their buffer limits are not modelled. For example, the Wire library drops a reply longer than its 32-byte transmit buffer, but `Responder.Req` still delivers the whole message.
- Arduino `String` allocation failure is left out. It would silently drop an appended byte. The message and the line buffers grow without bound.
- Interrupt interleaving between `loop` and the bus handlers is left out. Each handler invocation is one atomic event, with no preemption and no torn reads.
- Signed `char` is left out. Bytes are 0..255, and the comparisons with 0, 1, 2 and the newline do not depend on the sign.
- The unused `count` argument of `recv` is left out.
- Responder.RunEchoesLines: covers only runs without pass-through bus writes, because those print their payload on the same console between echoes; what a pass-through write prints is stated by `Responder.Recv`.
- Bridge.RunEchoesLines: covers only runs in which the second port sends nothing, because its bytes are printed on the console between echoes; where they go within a pass is stated by `Bridge.Loop` and `Bridge.LoopEchoesLines`.

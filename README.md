# SCP v2 serial protocol, modelled in Dafny

SCP v2 is a command/response protocol over a serial link between a ground
client and an embedded device that carries a camera and an LED strip. The
device runs an endless dispatcher loop. Each cycle reads one opcode byte and
handles three commands:

| opcode | request bytes after the opcode | reply |
|---|---|---|
| 0x00 take image | focus, red, green, blue (1 byte each) | the image size, 3 bytes big-endian |
| 0x01 get image | none | the image file's bytes, one write per byte, no prefix |
| 0x02 get telemetry | none | CPU temperature, then CPU load, 1 byte each |

The client writes a request frame. It then polls the port until a read
returns something. For the size and the telemetry it decodes that read with
the same big-endian rule; the image bytes are kept as they arrive.

## Layout

- `wrappers.dfy`, module `Wrappers`: `Option` and `Result`; `sequences.dfy`,
  module `Sequences`: two concatenation facts the proofs use.
- `codec.dfy`, module `Codec`: `ToBytes` models `int.to_bytes(n, w, 'big')`,
  which fails when `n` does not fit. `FromBytes` models
  `int.from_bytes(bs, 'big')`, where the empty input decodes to 0. Round
  trips are proved in both directions.
- `device.dfy`, module `Device` (scp2_main.py):
  - Pure functions describe one cycle of the dispatcher. `Parse` decodes the
    reads; `Execute` runs the handlers (`TakePicture`, `ImageStream`,
    `TelemetryReply`). `Steps` describes any number of cycles.
  - Class `Device` holds the port, the LED colour and the image file. Its
    methods (`ReadByte`, `TakePic`, `GetImage`, `GetTelemetry`, `Step`, `Run`)
    change that state step by step. Each method is proved equal to the pure
    functions.
- `host.dfy`, module `Host` (scp2_usage.py):
  - Pure functions: `Take` is one read, `Poll` is the retry loop, `Collect` is
    the image download loop, and `ReadTelemetry` reads the telemetry reply.
  - Class `Host` holds the port and the downloaded file. Its methods are
    `Read`, `Wait4Result`, `TakeImage`, `GetImage` and `GetTelemetry`.
- `end_to_end.dfy`, module `EndToEnd`: client and device together. It covers
  the take-image frame as the device decodes it, the size and image
  round-trips, the telemetry round-trip, and a full three-command session.

## How the environment is modelled

- **Device port.** The port is a sequence of read results, each
  `Timeout | Data(b)`. Once the sequence is used up, every further read times
  out. Writes are appended to a byte sequence `tx`.
- **Host port.** The port is a sequence of chunks: what each successive read
  finds waiting. An empty chunk is a read that timed out. `read(n)` on a chunk
  longer than `n` returns `n` bytes and leaves the rest for the next read, as
  a serial input buffer does.
- **Collaborators.** Each cycle the device gets an `Env` value as input. It
  holds the bytes the camera leaves in the image file (`None` when the camera
  leaves the file as it was), plus the integer CPU temperature and scaled
  load.
- **LED strip and camera.** The LED strip is modelled as the colour it shows.
  A ghost trace `effects` records every fill and camera run in order.
- **Missing image file.** A device may have no image file yet. Opening it then
  raises `FileNotFoundError`, which the loop swallows.
- **Polling.** `wait4result` polls without end in the source. Here it takes a
  `retries` bound: it returns the first non-empty read, or `None` once the
  bound is used up.
- **Arrival patterns.** The round-trip lemmas describe the host's reads as
  a sequence of `Arrival(wait, bytes)`. Each piece of data arrives after
  `wait` timed-out reads, for example while the camera runs or the
  device sleeps after a command. `InTime` asks each `wait` to be within the
  bound and each piece to be non-empty. Any grouping of the bytes into
  reads is allowed.

## Behaviour of the code worth knowing

- **Telemetry range.** Readings are not truncated to one byte. `to_bytes(1)`
  raises on a reading outside 0..255. An out-of-range load still lets the
  temperature byte out first (scp2_main.py:96-99).
- **Focus.** The focus parameter never reaches the camera command. It is only
  logged (scp2_main.py:67-74). The client sends focus 0xA0 = 160, which is
  outside the 0..104 that the dispatcher's own docstring documents
  (scp2_main.py:17).
- **Partial reads on the host.** The client does not keep reading until it has
  the full count. `wait4result` returns the first non-empty read, even a short
  one (scp2_usage.py:58-62). `Host.SplitSizeReply` shows a size reply
  `00 30 39` that arrives split: it decodes as 0.
- **Timed-out parameters.** A parameter read that times out is decoded as 0,
  and the command goes ahead (scp2_main.py:111-118).
- **Fetch before any capture.** FETCH_IMAGE before any CAPTURE streams whatever
  image file exists. If there is none, it writes nothing.

## Model

| member | source | states |
|---|---|---|
| `Codec.FromBytes` | scp2_main.py:112 | the big-endian value of `bs` is below 256^len(bs); the empty sequence decodes to 0 |
| `Codec.ToBytes` | scp2_main.py:122 | `to_bytes` succeeds exactly when 0 <= n < 256^width; it then gives exactly `width` bytes, and these decode back to n |
| `Codec.DecodeEncode` | scp2_main.py:122 | re-encoding a decoded byte sequence at its own width gives back the same bytes |
| `Codec.SizeFieldRange` | scp2_main.py:122 | the 3-byte size field accepts exactly 0..16,777,215 |
| `Codec.SizeExample` | scp2_main.py:122-123 | 12345 is sent as 00 30 39 |
| `Device.Parse` | scp2_main.py:107-118 | a CAPTURE opcode uses up exactly five reads and every other read uses up one; each capture parameter is below 256 |
| `Device.TakePicture` | scp2_main.py:66-79 | the LED ends off; without a new shot the file is the old one; the size is reported exactly when a file exists, as its length, and otherwise opening it faults with FileNotFound (the fill, camera, fill-off order and the whole CAPTURE reply: `Device.CaptureReply`) |
| `Device.ImageStream` | scp2_main.py:82-88 | the stream is exactly the stored file when one exists; with no file nothing is written and the fault is FileNotFound (`Device.FetchReply` lifts this to the FETCH_IMAGE handler) |
| `Device.TelemetryReply` | scp2_main.py:92-99 | no fault exactly when both readings fit a byte, and then the reply is [temperature, load]; on a fault the bytes written are none or only the temperature (`Device.TelemetryCases` states it per case) |
| `Device.Execute` | scp2_main.py:109-129 | only CAPTURE changes the device state or drives the LED and camera; after it the LED is off, and without a new shot the file is unchanged (per-command replies: `Device.CaptureReply`, `Device.FetchReply`, `Device.TelemetryCases`, `Device.FaultsAreSilent`) |
| `Device.CycleReads` | scp2_main.py:106-134 | one pass of the try block (`Cycle`) uses up five reads after a CAPTURE opcode and one otherwise, and any other first read leaves the state unchanged with no effects (quiet reads: `Device.QuietCycle`; parameters: `Device.CaptureFields`) |
| `Device.Steps` | scp2_main.py:105-134 | the loop logs exactly one fault slot per cycle |
| `Device.QuietCycle` | scp2_main.py:107-132 | a timeout or an unknown opcode writes nothing, leaves the state unchanged, logs no fault and uses up one read |
| `Device.CaptureFields` | scp2_main.py:111-118 | CAPTURE decodes the next four reads as focus, red, green, blue, in that order; a timed-out read gives 0 and focus is not range-checked |
| `Device.CaptureReply` | scp2_main.py:66-79 | the LED is filled with (r,g,b), the camera runs, then the LED is filled with black; the reply is 3 bytes decoding to the image length, with no fault, exactly when an image file exists and is shorter than 2^24 bytes; otherwise nothing is written |
| `Device.FetchReply` | scp2_main.py:82-88 | FETCH_IMAGE writes exactly the stored image bytes, in order, with no prefix and the stored length; with no image file it writes nothing and faults |
| `Device.OneByte` | scp2_main.py:96 | a value in 0..255 encodes as the single byte holding it |
| `Device.TelemetryCases` | scp2_main.py:92-99 | TELEMETRY writes [temperature, load] when both are in 0..255; it writes only [temperature] when the load is out of range, and nothing when the temperature is; the state never changes |
| `Device.FaultsAreSilent` | scp2_main.py:133-134 | a fault never produces a reply frame: before a fault the device has written nothing, or for TELEMETRY only the temperature byte |
| `Device.CaptureThenFetch` | scp2_main.py:120-126 | after a successful CAPTURE, FETCH_IMAGE streams exactly as many bytes as the CAPTURE reply announced, namely the image taken |
| `Device.QuietReadInvisible` | scp2_main.py:105-134 | the loop always returns to the opcode read: a timeout or unknown opcode in front of the input changes no later cycle's output, state, effects or faults |
| `Device.LoopResumes` | scp2_main.py:105-134 | after any cycle, faulting or not, the loop resumes at the opcode read: the later cycles run on the state and reads it left, and their output, effects and faults follow its own |
| `Device.OpcodeDispatch` | scp2_main.py:124-129 | a first read of 0x01 runs the FETCH_IMAGE handler and one of 0x02 the TELEMETRY handler, each using up exactly that read |
| `Device.Device.constructor` | scp2_main.py:60-62 | a fresh device: the given input script, nothing written, the LED off, the given image file |
| `Device.Device.ReadByte` | scp2_main.py:107 | `ser.read(1)` returns the next byte, or nothing on a timeout, and uses up that one read |
| `Device.Device.Write` | scp2_main.py:123 | `ser.write` appends the bytes to the port output |
| `Device.Device.TakePic` | scp2_main.py:66-79 | the new LED colour, image file, effect trace and returned size are those of `TakePicture` |
| `Device.Device.GetImage` | scp2_main.py:82-89 | the output grows by exactly the file's bytes, in order; a missing file raises before anything is written |
| `Device.Device.GetTelemetry` | scp2_main.py:92-100 | the output grows by `TelemetryReply`'s bytes, the temperature byte first, and the fault is the one it raises |
| `Device.Device.Step` | scp2_main.py:106-134 | one pass of the try block: reads, state, output, effects and the caught fault are those of `Parse` then `Execute` |
| `Device.Device.Run` | scp2_main.py:103-134 | `n` passes of the endless loop equal `Steps`: every cycle runs whatever the earlier cycles raised |
| `Host.Take` | scp2_usage.py:58 | `read(n)` returns at most n bytes, and nothing exactly when nothing is waiting (or n is 0) |
| `Host.TakeConserves` | scp2_usage.py:58 | `read(n)` loses and reorders no byte: what it returns followed by what is left waiting is what was waiting |
| `Host.Retry` | scp2_usage.py:59-62 | the retry loop returns 1..n bytes when it returns |
| `Host.RetryConserves` | scp2_usage.py:59-62 | the retry loop conserves the bytes that arrive, in order |
| `Host.Poll` | scp2_usage.py:57-62 | `wait4result`'s reads return 1..n bytes when they return |
| `Host.PollConserves` | scp2_usage.py:57-62 | the returned bytes followed by those left waiting are the arrived bytes |
| `Host.PollFirstData` | scp2_usage.py:57-62 | after any number of timed-out reads within the bound, the poll returns the first non-empty read, up to n bytes, possibly fewer; the rest of a longer read is what the next read returns |
| `Host.PacedPoll` | scp2_usage.py:57-62 | over data whose every piece arrives within the bound, a poll returns the first piece (up to n bytes), and what is left still arrives in time |
| `Host.PollGivesUp` | scp2_usage.py:59-62 | the poll gives up exactly when every read it may make times out |
| `Host.SplitSizeReply` | scp2_usage.py:75 | a size reply 00 30 39 that arrives split decodes as 0 and leaves 30 39 waiting |
| `Host.Collect` | scp2_usage.py:84-87 | the download is complete exactly when it holds `count` bytes, and it never holds more |
| `Host.CollectConserves` | scp2_usage.py:84-87 | the downloaded bytes followed by those left waiting are the arrived bytes |
| `Host.ImageIsArrivalOrder` | scp2_usage.py:84-87 | a complete download is exactly the first `file_size` arrived bytes, in arrival order |
| `Host.PacedStreamCompletes` | scp2_usage.py:84-87 | when every piece of data arrives within the timeouts a poll sits through and at least `file_size` bytes arrive, the download completes, however many reads time out before each piece |
| `Host.PollInt` | scp2_usage.py:57-64 | `wait4result(n, True)` gives a value below 256^n, and for n >= 1 it gives up exactly when every read it may make times out (which bytes it decodes: `Host.PollFirstData`, `Host.SplitSizeReply`) |
| `Host.ReadTelemetry` | scp2_usage.py:92-93 | the load is polled only after a temperature arrived, and both are byte values below 256 (which bytes they are: `Host.TelemetryIsFirstTwoBytes`) |
| `Host.TelemetryIsFirstTwoBytes` | scp2_usage.py:90-94 | temperature and load are the first and second arrived bytes, each decoded as an unsigned byte |
| `Host.Host.constructor` | scp2_usage.py:51-52 | a fresh client: the given input, nothing written, an empty image file |
| `Host.Host.Read` | scp2_usage.py:58 | the port read is `Take` |
| `Host.Host.Write` | scp2_usage.py:69 | `ser.write` appends the bytes to the port output |
| `Host.Host.Wait4Result` | scp2_usage.py:57-66 | does the reads of `Poll`; with `to_int` it returns the unsigned big-endian value, otherwise the raw bytes |
| `Host.Host.TakeImage` | scp2_usage.py:68-77 | writes exactly 00 A0 A1 A2 12, then returns the decoded result of one 3-byte poll |
| `Host.Host.GetImage` | scp2_usage.py:80-88 | writes 01 once, empties the file, then the file, completion and remaining input are those of `Collect` for `file_size` one-byte polls |
| `Host.Host.GetTelemetry` | scp2_usage.py:90-94 | writes 02, then decodes two successive one-byte polls as temperature and load; it returns the two values the source prints |
| `EndToEnd.CaptureRoundTrip` | scp2_usage.py:68-75 | the client's frame reaches the device as CAPTURE(160, 0xA1, 0xA2, 0x12) and uses up exactly five reads; the client decodes the 3-byte reply to the length of the new image when it arrives in one read, after at most `retries` timed-out reads |
| `EndToEnd.RequestDispatch` | scp2_usage.py:80-91 | the client's `01` and `02` frames reach the device as FETCH_IMAGE and TELEMETRY, each using up its one byte |
| `EndToEnd.FetchRoundTrip` | scp2_usage.py:80-88 | downloading the announced number of bytes gives exactly the image the device streams, however the bytes are split into reads and however many reads time out before each, within the bound |
| `EndToEnd.TelemetryRoundTrip` | scp2_usage.py:90-94 | for readings in 0..255 the client decodes the device's reply as the temperature and the load, in that order, whether the two bytes arrive together or apart and after timeouts within the bound |
| `EndToEnd.Session` | scp2_main.py:103-129 | CAPTURE of a 12345-byte image, FETCH_IMAGE, then TELEMETRY (42, 37) writes 00 30 39, the image, then 2A 25, with no fault |

## Left out

- Serial port construction and settings (115200 baud, no parity, 1 stop bit,
  the 0.1 s timeout; scp2_main.py:60, scp2_usage.py:51). These are transport
  set-up; reads are abstract results.
- NeoPixel hardware (scp2_main.py:61, 68-69, 75). Only the colour the strip
  shows is kept.
- The `raspistill` command via `os.system` and file opening and reading
  (scp2_main.py:71-78, 83-85). These are foreign calls. The camera's effect is
  the `Env.shot` input, and the image file is a byte-sequence slot.
- The client's image file writes (scp2_usage.py:83-86). The file is the
  `imageFile` byte sequence.
- The gpiozero sensors and the floating-point `int(temperature)` and
  `int(load_average*100)` (scp2_main.py:93-95). The resulting integers are
  inputs.
- `time.sleep`, `print` and `traceback` logging, and the unused imports. The
  logged traceback is kept only as the fault each cycle returns.
- The `__main__` drivers of both files (scp2_main.py:137-141,
  scp2_usage.py:96-103). These are usage sequences of the modelled routines.
- Host.Host.Wait4Result: polls at most `retries` more times and then gives
  up, where the source polls forever. A give-up stands for a client that would
  still be polling.
- Host.Host.GetTelemetry: when the temperature poll gives up, it returns
  without polling for the load, where the source would still be waiting.
  It returns the two readings, where `get_telemetry` prints them and
  returns None. The printed text is not modelled.
- Device.Device.Run: runs a given finite number of cycles of the endless
  loop.

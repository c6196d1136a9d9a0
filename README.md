# mictomidi detector, modelled in Dafny

mictomidi listens to one audio input and turns percussive hits into MIDI
notes. For every audio frame it compares the magnitude of the sample with a
threshold. A loud frame while the note is off starts the note (Note On). A
debounce counter then has to run through `min_time_between_hits` more quiet
frames after the last loud one before the note is released (Note Off). Each
event is written as three MIDI bytes at the frame offset where it happens.

The model covers the per-frame loop `process` and the event writer
`toggle_midi_event` in `main.c`:

- `midi.dfy`, module `Midi`: the three-byte Note On / Note Off channel voice
  message of MIDI 1.0, with `Encode` and its inverse `Decode`.
- `detection.dfy`, module `Detection`: the detector as a pure state machine.
  `Step` handles one frame and `Process` handles a block of frames. The state
  is the counter (`count`, starting at -1) and the note flag (`playing`,
  starting off). The parameters (threshold, `min_time_between_hits`,
  channel, note, analog mode) form a `Config`.
- `mictomidi.dfy`, module `MicToMidi`: the class `Detector`. Its fields
  `count` and `playing` persist between calls, as the static counter and the
  global note flag do between JACK callbacks. `ToggleMidiEvent` flips the
  flag and builds the event. `Process` loops over a block of samples and
  returns the events. Both are proved equal to the pure model.
- `detection_properties.dfy`, module `DetectionProperties`: the timing and
  encoding properties, stated over `Detection.Process`.

Samples are `real` numbers and loudness is `|x| > threshold`. The counter is
modelled exactly as the code updates it. On a quiet frame it is incremented,
and when its old value equals `m` it is set to -1. So during a long silence
it keeps cycling -1, 0, …, m, -1, … (`QuietCounterCycles`): the counter does
not stop after a release. No event fires meanwhile (`QuietWhileOff`).

With threshold 0.25, m = 2 and input `[0.1, 0.3, 0.3, 0.1, 0.1, 0.1, 0.3]`
the code emits a Note On at offset 1, a Note Off at offset 5 and a Note On at
offset 6 (`WorkedTrace`).

## Model

| member | source | states |
|---|---|---|
| `Midi.StatusByte` | main.c:48 | the status byte's high nibble is 9 for Note On and 8 for Note Off; its low nibble is the channel |
| `Midi.Encode` | main.c:47-50 | the event is three bytes: the status byte of the message's kind and channel, then the note, then the velocity |
| `Midi.Decode` | main.c:47-50 | a byte string decodes exactly when it has three bytes and a Note Off/Note On status (0x80..0x9F) |
| `Midi.DecodeEncode` | main.c:47-50 | decoding an encoded message gives the message back |
| `Midi.EncodeDecode` | main.c:47-50 | every byte string that decodes is the encoding of what it decodes to |
| `Midi.StatusByteIsBitwise` | main.c:48 | the status byte equals `0x80 \| (on << 4) \| (channel & 0xF)` computed on 8-bit vectors |
| `Detection.Abs` | main.c:66 | the volume is non-negative and is x or -x |
| `Detection.NextCount` | main.c:66-69 | the counter update keeps a counter in [-1, m] inside [-1, m]: 0 after a loud frame, -1 after a quiet frame from m, one more otherwise |
| `Detection.Flag` | main.c:71 | the note flag as the int 0 or 1, equal to 1 exactly when playing |
| `Detection.Velocity` | main.c:50 | 0x7F in fixed mode; in analog mode, for 127·volume below 256, the largest integer not above 127·volume |
| `Detection.Step` | main.c:65-72 | one frame: a message is produced exactly when the note flag flips, it announces the new flag, and the reachable-state invariant is kept |
| `Detection.Emit` | main.c:71-72 | a message becomes one event at the current frame offset, whose bytes decode back to that message |
| `Detection.Process` | main.c:64-73 | a block emits no more events than it has frames; an empty block changes nothing (one event per frame at most: `EventsOrdered`) |
| `MicToMidi.Detector.constructor` | main.c:59 | a new detector has counter -1 and the note off |
| `MicToMidi.Detector.ToggleMidiEvent` | main.c:46-51 | flips `playing` and returns the three bytes of the toggle message at the given frame |
| `MicToMidi.Detector.Process` | main.c:53-76 | the loop leaves `count`/`playing` and returns the events exactly as `Detection.Process` says, and keeps the invariant |
| `DetectionProperties.ProcessSnoc` | main.c:65-73 | one more frame extends a block's result by exactly one `Step` at the next offset |
| `DetectionProperties.ProcessKeepsInv` | main.c:59-72 | from a valid state, the counter stays in [-1, m] and is never -1 while the note plays, for any input |
| `DetectionProperties.CountInRange` | main.c:59-69 | from the initial state the counter is in [-1, m] after every block, and at least 0 while playing |
| `DetectionProperties.LoudFrame` | main.c:66-72 | after a loud frame the counter is 0 and the note is playing; a Note On is emitted exactly when the note was off |
| `DetectionProperties.QuietWhileOff` | main.c:68-72 | during any silence while off, no event fires and the note stays off |
| `DetectionProperties.QuietCounterCounts` | main.c:68-69 | during a silence while off, the counter follows the quiet-frame update n times |
| `DetectionProperties.QuietCounterCycles` | main.c:68-69 | during a silence while off, the counter after n frames is (k + 1 + n) mod (m + 2) − 1: it cycles and never rests |
| `DetectionProperties.AttackAfterSilence` | main.c:66-72 | after any silence with the note off, the first loud frame emits a Note On at its own offset, and nothing is emitted earlier |
| `DetectionProperties.QuietWhilePlaying` | main.c:68-71 | while playing, quiet frames that do not reach m only advance the counter and emit nothing |
| `DetectionProperties.HeldThroughDebounce` | main.c:66-71 | a loud frame followed by up to m quiet frames leaves the note on: no release before the (m+1)-th quiet frame |
| `DetectionProperties.DebouncedRelease` | main.c:66-72 | the (m+1)-th quiet frame after the last loud one emits the Note Off at offset m + 1 and sets the counter to -1 |
| `DetectionProperties.EventsAlternate` | main.c:46-73 | events alternate Note On / Note Off, the first flipping the initial state, and the final state is the last event's kind |
| `DetectionProperties.FirstEventIsNoteOn` | main.c:46-73 | from the initial state, the i-th event is a Note On exactly when i is even |
| `DetectionProperties.EventsOrdered` | main.c:65-73 | event offsets strictly increase and lie inside the block |
| `DetectionProperties.ToggleStatusIsBitwise` | main.c:48 | the first byte of a toggle event equals `0x80 \| (!playing << 4) \| (channel & 0xF)` on 8-bit vectors, with `playing` the flag before the flip |
| `DetectionProperties.EventsCarryConfig` | main.c:48-50 | every event is a three-byte Note On/Off on channel & 0xF with the configured note, and velocity 0x7F unless analog |
| `DetectionProperties.AnalogVelocityMonotone` | main.c:50 | in analog mode the velocity never decreases as the volume grows, and it is at most 0x7F up to full scale |
| `DetectionProperties.ProcessConcat` | main.c:59-73 | processing block a then block b gives the same state and events as processing a + b, with b's offsets shifted by \|a\| |
| `DetectionProperties.WorkedTrace` | main.c:65-73 | threshold 0.25, m = 2, input [0.1, 0.3, 0.3, 0.1, 0.1, 0.1, 0.3]: Note On at 1, Note Off at 5, Note On at 6 |
| `DetectionProperties.WorkedTraceAttack` | main.c:65-73 | the same trace after its first four frames: one Note On at 1, the note playing, counter 1 |

## Left out

- JACK client setup, port registration and auto-connection, `jack_stop` and `atexit` (main.c:96-139). They are I/O over a library that is not part of this model.
- The `sample_rate`, `error` and `jack_shutdown` callbacks (main.c:78-90). They only log and exit.
- `main`'s option parsing and its sleep loop (main.c:141-180). The parameters are given as a `Config` value instead.
- Negative `min_time_between_hits`. `atoi` accepts one, but `Config` takes a `nat`. With a negative m, once a note plays the counter is at least 0 and only grows (main.c:67-68). It never equals m again, so the note is never released until `count++` overflows.
- The `count++` overflow when m is `INT_MAX` is not modelled. Integers are unbounded here.
- `jack_midi_event_reserve` is a foreign call. The output buffer is modelled as the returned sequence of events, starting empty as `jack_midi_clear_buffer` leaves it. A `NULL` return when the buffer is full is not modelled.
- Samples are `real`. Single-precision `fabs`, the float comparison and the single-precision product `0x7F * volume` (main.c:50) are taken as exact.
- Detection.Velocity: C leaves the analog-mode conversion of 127·volume to `unsigned char` undefined once the value is 256 or more. The model takes the low byte of the truncated value there, and its contract speaks only of the defined range. A Note Off in analog mode carries the quiet frame's volume, as the code does.
- The `instrument` field (main.c:15). No emitted byte uses it.
- The channel: `channel & 0xF` is modelled as `channel % 16` and the note byte as `note % 256`, matching two's-complement truncation. The default channel 0x0A is kept as written, even though its comment calls it channel 10.
- Range checks on threshold, channel and note: main.c:152-164 uses the `atof`/`atoi` values as they are.

/**
  The per-frame transient detector as a pure state machine.

  The detector keeps two values between frames: the debounce counter
  (a static int, -1 at start) and whether the note is playing. Each
  audio frame is classified loud or quiet against the threshold, the
  counter is updated, and a toggle fires when the loudness differs from
  the note state and the counter is at the value that state waits for:
  0 (an attack, just reset by a loud frame) while off, -1 (the release
  point of the counter) while on.
 */
module Detection {
  import opened Midi

  /**
    The parameters the program reads at startup. minTimeBetweenHits is
    the number of quiet frames after the last loud one that the counter
    runs through before it releases the note.
   */
  datatype Config = Config(
    threshold: real,
    minTimeBetweenHits: nat,
    channel: int,
    note: int,
    analog: bool)

  /** The state kept between frames and between processing blocks. */
  datatype State = State(count: int, playing: bool)

  /** The counter starts at -1 and the note is not playing. */
  const Initial: State := State(-1, false)

  /** A MIDI event: its frame offset inside the block and its bytes. */
  datatype Event = Event(frame: nat, data: seq<byte>)

  /** The outcome of one frame: the next state and the message, if a toggle fired. */
  datatype StepResult = StepResult(next: State, msg: Option<Message>)

  /** The outcome of a block of frames: the final state and the events, in frame order. */
  datatype Block = Block(state: State, events: seq<Event>)

  /** The states the detector can reach: the counter in [-1, m], and never -1 while playing. */
  ghost predicate Inv(c: Config, s: State)
  {
    -1 <= s.count <= c.minTimeBetweenHits && (s.playing ==> s.count != -1)
  }

  function Abs(x: real): (r: real)
    ensures r >= 0.0 && (r == x || r == -x)
  {
    if x < 0.0 then -x else x
  }

  /** A frame is loud when its magnitude is strictly above the threshold. */
  predicate Loud(c: Config, x: real)
  {
    Abs(x) > c.threshold
  }

  /**
    The counter update: reset to 0 on a loud frame; on a quiet frame
    incremented, except that the value m wraps to -1.
   */
  function NextCount(c: Config, count: int, loud: bool): (r: int)
    ensures loud ==> r == 0
    ensures !loud && count == c.minTimeBetweenHits ==> r == -1
    ensures !loud && count != c.minTimeBetweenHits ==> r == count + 1
    ensures -1 <= count <= c.minTimeBetweenHits ==> -1 <= r <= c.minTimeBetweenHits
  {
    if loud then 0
    else if count == c.minTimeBetweenHits then -1
    else count + 1
  }

  /** The note flag as the int 0 or 1 the source compares against the counter. */
  function Flag(playing: bool): (r: int)
    ensures r == 0 || r == 1
    ensures r == 1 <==> playing
  {
    if playing then 1 else 0
  }

  /**
    The velocity byte: 0x7F in fixed mode; in analog mode 0x7F times the
    volume, truncated towards zero and stored in a byte.
   */
  function Velocity(c: Config, volume: real): (r: byte)
    requires volume >= 0.0
    ensures !c.analog ==> r == 0x7F
    ensures c.analog && 127.0 * volume < 256.0 ==> r as real <= 127.0 * volume < r as real + 1.0
  {
    if c.analog then (127.0 * volume).Floor % 256 else 0x7F
  }

  /**
    The message written when the note flag flips from `playing`: a Note On
    when it was off, a Note Off when it was on, on the low nibble of the
    configured channel, with the configured note as key.
   */
  function ToggleMessage(c: Config, playing: bool, volume: real): Message
    requires volume >= 0.0
  {
    Message(!playing, c.channel % 16, c.note % 256, Velocity(c, volume))
  }

  /**
    One frame of the detector. A message is produced exactly when the
    note flag flips, and it announces the new flag.
   */
  function Step(c: Config, s: State, x: real): (r: StepResult)
    ensures r.msg.Some? <==> r.next.playing != s.playing
    ensures r.msg.Some? ==> r.msg.value.on == r.next.playing
    ensures Inv(c, s) ==> Inv(c, r.next)
  {
    var loud := Loud(c, x);
    var count := NextCount(c, s.count, loud);
    if loud != s.playing && -Flag(s.playing) == count then
      StepResult(State(count, !s.playing), Some(ToggleMessage(c, s.playing, Abs(x))))
    else
      StepResult(State(count, s.playing), None)
  }

  /** The event, if any, that a frame's message puts at offset `frame`. */
  function Emit(msg: Option<Message>, frame: nat): (r: seq<Event>)
    ensures |r| <= 1
    ensures msg.Some? <==> |r| == 1
    ensures msg.Some? ==> r[0].frame == frame && Decode(r[0].data) == msg
  {
    match msg
    case None => []
    case Some(m) => DecodeEncode(m); [Event(frame, Encode(m))]
  }

  /** The frames of xs, in order, starting from state s. */
  function Process(c: Config, s: State, xs: seq<real>): (b: Block)
    ensures |b.events| <= |xs|
    ensures xs == [] ==> b == Block(s, [])
  {
    if xs == [] then Block(s, [])
    else
      var last := |xs| - 1;
      var before := Process(c, s, xs[..last]);
      var r := Step(c, before.state, xs[last]);
      Block(r.next, before.events + Emit(r.msg, last))
  }
}

/**
  The detector as the program runs it: one object whose counter and note
  flag persist from one call of Process to the next, as the static
  counter and the global note flag do between processing callbacks.
 */
module MicToMidi {
  import opened Midi
  import opened Detection

  class Detector {
    const config: Config
    var count: int
    var playing: bool

    /** The state as the pure model sees it. */
    function Current(): State
      reads this
    {
      State(count, playing)
    }

    ghost predicate Valid()
      reads this
    {
      Inv(config, Current())
    }

    /** A detector that has processed nothing: counter -1, note off. */
    constructor (config: Config)
      ensures this.config == config
      ensures Current() == Initial
      ensures Valid()
    {
      this.config := config;
      count := -1;
      playing := false;
    }

    /**
      Flips the note flag and returns the three bytes reserved at `frame`:
      Note On if the note was off, Note Off if it was on.
     */
    method ToggleMidiEvent(frame: nat, volume: real) returns (e: Event)
      requires volume >= 0.0
      requires count == -Flag(playing) && -1 <= count <= config.minTimeBetweenHits
      modifies this`playing
      ensures Valid()
      ensures playing == !old(playing)
      ensures e == Event(frame, Encode(ToggleMessage(config, old(playing), volume)))
    {
      playing := !playing;
      var status: byte := 0x80 + 16 * Flag(playing) + config.channel % 16;
      e := Event(frame, [status, config.note % 256, Velocity(config, volume)]);
    }

    /**
      Runs the detector over one block of samples and returns the events
      written to the (cleared) output buffer, in frame order.
     */
    method Process(samples: seq<real>) returns (out: seq<Event>)
      requires Valid()
      modifies this`count, this`playing
      ensures Valid()
      ensures Current() == Detection.Process(config, old(Current()), samples).state
      ensures out == Detection.Process(config, old(Current()), samples).events
    {
      ghost var start := Current();
      out := [];
      var frame := 0;
      while frame < |samples|
        invariant 0 <= frame <= |samples|
        invariant Current() == Detection.Process(config, start, samples[..frame]).state
        invariant out == Detection.Process(config, start, samples[..frame]).events
        invariant Valid()
      {
        assert samples[..frame + 1][..frame] == samples[..frame];
        ghost var r := Step(config, Current(), samples[frame]);
        ghost var before := out;
        var volume := Abs(samples[frame]);
        var isOn := volume > config.threshold;
        if isOn {
          count := 0;
        } else {
          var previous := count;
          count := count + 1;
          if previous == config.minTimeBetweenHits {
            count := -1;
          }
        }
        assert isOn == Loud(config, samples[frame]) && count == r.next.count;
        if isOn != playing && -Flag(playing) == count {
          var e := ToggleMidiEvent(frame, volume);
          out := out + [e];
        }
        assert Current() == r.next && out == before + Emit(r.msg, frame);
        frame := frame + 1;
      }
      assert samples[..frame] == samples;
    }
  }
}

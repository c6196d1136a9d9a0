/**
  What the detector guarantees: counter bounds, immediate attack,
  debounced release, alternation of Note On and Note Off, the contents of
  every event, and that splitting the input into blocks changes nothing.
 */
module DetectionProperties {
  import opened Midi
  import opened Detection

  /** Every frame of xs is quiet. */
  ghost predicate AllQuiet(c: Config, xs: seq<real>)
  {
    forall i :: 0 <= i < |xs| ==> !Loud(c, xs[i])
  }

  predicate IsNoteOn(e: Event)
  {
    Decode(e.data).Some? && Decode(e.data).value.on
  }

  /** The events, with their frame offsets moved `k` frames later. */
  function Shift(events: seq<Event>, k: nat): seq<Event>
  {
    if events == [] then []
    else
      var last := |events| - 1;
      Shift(events[..last], k) + [Event(events[last].frame + k, events[last].data)]
  }

  /** The first event flips `from`, and every event flips the one before it. */
  ghost predicate Alternating(events: seq<Event>, from: bool)
  {
    (|events| > 0 ==> IsNoteOn(events[0]) == !from) &&
    (forall i :: 0 <= i < |events| - 1 ==> IsNoteOn(events[i]) != IsNoteOn(events[i + 1]))
  }

  /** Frame offsets strictly increase and lie inside a block of n frames. */
  ghost predicate OrderedWithin(events: seq<Event>, n: nat)
  {
    (forall i :: 0 <= i < |events| ==> events[i].frame < n) &&
    (forall i, j :: 0 <= i < j < |events| ==> events[i].frame < events[j].frame)
  }

  /** Every event is a well-formed message on the configured channel and note. */
  ghost predicate CarriesConfig(c: Config, events: seq<Event>)
  {
    forall i :: 0 <= i < |events| ==>
      var d := Decode(events[i].data);
      d.Some? && d.value.channel == c.channel % 16 && d.value.key == c.note % 256 &&
      (!c.analog ==> d.value.velocity == 0x7F)
  }

  /** Processing one more frame extends the block's state and events by one Step. */
  lemma ProcessSnoc(c: Config, s: State, xs: seq<real>, x: real)
    ensures var b := Process(c, s, xs);
            var r := Step(c, b.state, x);
            Process(c, s, xs + [x]) == Block(r.next, b.events + Emit(r.msg, |xs|))
  {
    assert (xs + [x])[..|xs|] == xs;
  }

  /** The counter stays in [-1, m], and is never -1 while the note plays, however long the input. */
  lemma {:induction false} ProcessKeepsInv(c: Config, s: State, xs: seq<real>)
    requires Inv(c, s)
    ensures Inv(c, Process(c, s, xs).state)
  {
    if xs != [] {
      ProcessKeepsInv(c, s, xs[..|xs| - 1]);
    }
  }

  /** From the initial state, every reachable state keeps the counter in [-1, m]. */
  lemma CountInRange(c: Config, xs: seq<real>)
    ensures -1 <= Process(c, Initial, xs).state.count <= c.minTimeBetweenHits
    ensures Process(c, Initial, xs).state.playing ==> Process(c, Initial, xs).state.count >= 0
  {
    ProcessKeepsInv(c, Initial, xs);
  }

  /**
    A loud frame always leaves the counter at 0 and the note playing; it
    emits a Note On exactly when the note was off.
   */
  lemma LoudFrame(c: Config, s: State, x: real)
    requires Loud(c, x)
    ensures Step(c, s, x).next == State(0, true)
    ensures Step(c, s, x).msg == if s.playing then None else Some(ToggleMessage(c, false, Abs(x)))
  {
  }

  /** During a silence with the note off, the note stays off and nothing is emitted. */
  lemma {:induction false} QuietWhileOff(c: Config, s: State, xs: seq<real>)
    requires !s.playing
    requires AllQuiet(c, xs)
    ensures Process(c, s, xs).events == []
    ensures !Process(c, s, xs).state.playing
  {
    if xs != [] {
      var n := |xs| - 1;
      QuietWhileOff(c, s, xs[..n]);
      assert !Loud(c, xs[n]);
    }
  }

  /**
    The counter does not rest during a silence with the note off: it keeps
    cycling through -1, 0, ..., m.
   */
  lemma QuietCounterCycles(c: Config, s: State, xs: seq<real>)
    requires Inv(c, s) && !s.playing
    requires AllQuiet(c, xs)
    ensures Process(c, s, xs).state.count == CyclePosition(s.count, |xs|, c.minTimeBetweenHits)
  {
    QuietCounterCounts(c, s, xs);
    QuietCountCycles(s.count, |xs|, c.minTimeBetweenHits);
  }

  /** The counter after n quiet frames from k: each one increments it, m wraps to -1. */
  function QuietCount(k: int, n: nat, m: nat): int
  {
    if n == 0 then k
    else
      var before := QuietCount(k, n - 1, m);
      if before == m then -1 else before + 1
  }

  lemma {:induction false} QuietCounterCounts(c: Config, s: State, xs: seq<real>)
    requires Inv(c, s) && !s.playing
    requires AllQuiet(c, xs)
    ensures Process(c, s, xs).state.count == QuietCount(s.count, |xs|, c.minTimeBetweenHits)
  {
    if xs != [] {
      var n := |xs| - 1;
      QuietCounterCounts(c, s, xs[..n]);
      QuietWhileOff(c, s, xs[..n]);
      assert !Loud(c, xs[n]);
    }
  }

  lemma {:induction false} QuietCountCycles(k: int, n: nat, m: nat)
    requires -1 <= k <= m
    ensures QuietCount(k, n, m) == CyclePosition(k, n, m)
  {
    if n > 0 {
      QuietCountCycles(k, n - 1, m);
      CycleStep(k, n - 1, m, QuietCount(k, n - 1, m));
    } else {
      ModUnique(k + 1, m + 2, 0, k + 1);
    }
  }

  /**
    Where the counter stands after n quiet frames from k with the note off:
    it runs through -1, 0, ..., m and starts over, a cycle of m + 2 values.
   */
  function CyclePosition(k: int, n: nat, m: nat): int
  {
    (k + 1 + n) % (m + 2) - 1
  }

  /** One more quiet frame moves the counter one place along its cycle. */
  lemma CycleStep(k0: int, n: nat, m: nat, k: int)
    requires k == CyclePosition(k0, n, m)
    ensures (if k == m then -1 else k + 1) == CyclePosition(k0, n + 1, m)
  {
    ModNext(k0 + 1 + n, m + 2);
  }

  /** How x % p moves when x grows by one. */
  lemma ModNext(x: int, p: int)
    requires p > 0
    ensures (x + 1) % p == if x % p == p - 1 then 0 else x % p + 1
  {
    var q := x / p;
    assert x == q * p + x % p;
    if x % p == p - 1 {
      ModUnique(x + 1, p, q + 1, 0);
    } else {
      ModUnique(x + 1, p, q, x % p + 1);
    }
  }

  /** Quotient and remainder are the only ones with x == q * p + r and 0 <= r < p. */
  lemma ModUnique(x: int, p: int, q: int, r: int)
    requires p > 0 && 0 <= r < p && x == q * p + r
    ensures x % p == r && x / p == q
  {
    var q0, r0 := x / p, x % p;
    assert x == q0 * p + r0;
    assert (q - q0) * p == r0 - r;
    if q > q0 {
      MulAtLeast(q - q0, p);
    } else if q < q0 {
      MulAtLeast(q0 - q, p);
    }
  }

  lemma MulAtLeast(d: int, p: int)
    requires d >= 1 && p > 0
    ensures d * p >= p
  {
  }

  /**
    After any silence with the note off, the first loud frame emits a
    Note On at exactly its own offset, and nothing is emitted before it.
   */
  lemma AttackAfterSilence(c: Config, s: State, xs: seq<real>)
    requires !s.playing
    requires |xs| > 0 && AllQuiet(c, xs[..|xs| - 1]) && Loud(c, xs[|xs| - 1])
    ensures Process(c, s, xs).state == State(0, true)
    ensures Process(c, s, xs).events == [Event(|xs| - 1, Encode(ToggleMessage(c, false, Abs(xs[|xs| - 1]))))]
  {
    var n := |xs| - 1;
    QuietWhileOff(c, s, xs[..n]);
  }

  /**
    While the note plays and the counter has not reached m, quiet frames
    only advance the counter.
   */
  lemma {:induction false} QuietWhilePlaying(c: Config, s: State, xs: seq<real>)
    requires s.playing && 0 <= s.count && s.count + |xs| <= c.minTimeBetweenHits
    requires AllQuiet(c, xs)
    ensures Process(c, s, xs) == Block(State(s.count + |xs|, true), [])
  {
    if xs != [] {
      var n := |xs| - 1;
      QuietWhilePlaying(c, s, xs[..n]);
      assert !Loud(c, xs[n]);
    }
  }

  /** The Note On a loud first frame emits, if the note was off before it. */
  function AttackAt0(c: Config, s: State, x: real): (r: seq<Event>)
  {
    if s.playing then [] else [Event(0, Encode(ToggleMessage(c, false, Abs(x))))]
  }

  /**
    A loud frame followed by at most m quiet frames: the note is on after
    the loud frame (a Note On at offset 0 if it was off) and stays on, the
    counter counting the quiet frames.
   */
  lemma {:induction false} HeldThroughDebounce(c: Config, s: State, xs: seq<real>)
    requires 1 <= |xs| <= c.minTimeBetweenHits + 1
    requires Loud(c, xs[0]) && AllQuiet(c, xs[1..])
    ensures Process(c, s, xs) == Block(State(|xs| - 1, true), AttackAt0(c, s, xs[0]))
  {
    var n := |xs| - 1;
    if n == 0 {
      assert xs == [] + [xs[0]];
      ProcessSnoc(c, s, [], xs[0]);
    } else {
      var prefix := xs[..n];
      assert prefix[0] == xs[0];
      assert prefix[1..] == xs[1..n];
      HeldThroughDebounce(c, s, prefix);
      assert xs == prefix + [xs[n]];
      ProcessSnoc(c, s, prefix, xs[n]);
      assert !Loud(c, xs[n]) by {
        assert xs[1..][n - 1] == xs[n];
      }
    }
  }

  /**
    The release: after a loud frame, the (m+1)-th quiet frame in a row, at
    offset m + 1, emits the Note Off and leaves the counter at -1. With
    m = 0 that is the first quiet frame.
   */
  lemma DebouncedRelease(c: Config, s: State, xs: seq<real>)
    requires |xs| == c.minTimeBetweenHits + 2
    requires Loud(c, xs[0]) && AllQuiet(c, xs[1..])
    ensures var m := c.minTimeBetweenHits;
            Process(c, s, xs) ==
              Block(State(-1, false), AttackAt0(c, s, xs[0]) + [Event(m + 1, Encode(ToggleMessage(c, true, Abs(xs[m + 1]))))])
  {
    var n := |xs| - 1;
    var prefix := xs[..n];
    assert prefix[0] == xs[0];
    assert prefix[1..] == xs[1..n];
    HeldThroughDebounce(c, s, prefix);
    assert xs == prefix + [xs[n]];
    ProcessSnoc(c, s, prefix, xs[n]);
    assert !Loud(c, xs[n]) by {
      assert xs[1..][n - 1] == xs[n];
    }
  }

  /**
    Each event flips the note: the events alternate between Note On and
    Note Off, the first one the opposite of the initial note state, and the
    final note state is the one the last event announced.
   */
  lemma {:induction false} EventsAlternate(c: Config, s: State, xs: seq<real>)
    ensures Alternating(Process(c, s, xs).events, s.playing)
    ensures var b := Process(c, s, xs);
            b.state.playing == if b.events == [] then s.playing else IsNoteOn(b.events[|b.events| - 1])
  {
    if xs != [] {
      var n := |xs| - 1;
      var prefix := xs[..n];
      EventsAlternate(c, s, prefix);
      var b := Process(c, s, prefix);
      var r := Step(c, b.state, xs[n]);
      if r.msg.Some? {
        var e := Emit(r.msg, n)[0];
        assert IsNoteOn(e) == r.next.playing;
        assert Process(c, s, xs).events == b.events + [e];
      }
    }
  }

  /** At most one event per frame: offsets strictly increase and stay inside the block. */
  lemma {:induction false} EventsOrdered(c: Config, s: State, xs: seq<real>)
    ensures OrderedWithin(Process(c, s, xs).events, |xs|)
  {
    if xs != [] {
      EventsOrdered(c, s, xs[..|xs| - 1]);
    }
  }

  /** From the initial state the first event is a Note On, the second a Note Off, and so on. */
  lemma FirstEventIsNoteOn(c: Config, xs: seq<real>)
    ensures var events := Process(c, Initial, xs).events;
            forall i :: 0 <= i < |events| ==> IsNoteOn(events[i]) == (i % 2 == 0)
  {
    var events := Process(c, Initial, xs).events;
    EventsAlternate(c, Initial, xs);
    forall i | 0 <= i < |events|
      ensures IsNoteOn(events[i]) == (i % 2 == 0)
    {
      AlternatingParity(events, false, i);
    }
  }

  /** In an alternating sequence the kind of the i-th event is fixed by the parity of i. */
  lemma {:induction false} AlternatingParity(events: seq<Event>, from: bool, i: nat)
    requires Alternating(events, from) && i < |events|
    ensures IsNoteOn(events[i]) == (i % 2 == 0 <==> !from)
  {
    if i > 0 {
      AlternatingParity(events, from, i - 1);
    }
  }

  /**
    Every event is a three-byte Note On or Note Off on the configured
    channel's low nibble, with the configured note, and velocity 0x7F when
    analog mode is off.
   */
  lemma {:induction false} EventsCarryConfig(c: Config, s: State, xs: seq<real>)
    ensures CarriesConfig(c, Process(c, s, xs).events)
    ensures forall e :: e in Process(c, s, xs).events ==> |e.data| == 3
  {
    if xs != [] {
      var n := |xs| - 1;
      EventsCarryConfig(c, s, xs[..n]);
    }
  }

  /**
    The status byte of a toggle is the source's bitwise expression:
    0x80 | (new note state << 4) | (channel & 0xF).
   */
  lemma ToggleStatusIsBitwise(c: Config, playing: bool, volume: real)
    requires volume >= 0.0
    ensures Encode(ToggleMessage(c, playing, volume))[0] as bv8
         == 0x80 | (Flag(!playing) as bv8 << 4) | ((c.channel % 16) as bv8 & 0xF)
  {
    StatusByteIsBitwise(!playing, c.channel % 16);
  }

  /**
    In analog mode the velocity never decreases as the volume grows, and
    it stays at most 0x7F for volumes up to full scale.
   */
  lemma AnalogVelocityMonotone(c: Config, v1: real, v2: real)
    requires c.analog && 0.0 <= v1 <= v2 && 127.0 * v2 < 256.0
    ensures Velocity(c, v1) <= Velocity(c, v2)
    ensures v2 <= 1.0 ==> Velocity(c, v2) <= 0x7F
  {
  }

  /**
    Block boundaries are invisible: processing a then b, with the state
    carried over, gives the same final state and the same events as
    processing a + b at once, with b's offsets moved by |a|.
   */
  lemma {:induction false} ProcessConcat(c: Config, s: State, a: seq<real>, b: seq<real>)
    ensures var first := Process(c, s, a);
            var second := Process(c, first.state, b);
            Process(c, s, a + b) == Block(second.state, first.events + Shift(second.events, |a|))
  {
    if b == [] {
      assert a + b == a;
    } else {
      var n := |b| - 1;
      assert a + b == (a + b[..n]) + [b[n]];
      assert b == b[..n] + [b[n]];
      ProcessConcat(c, s, a, b[..n]);
      var first := Process(c, s, a);
      ConcatStep(c, s, first.state, a + b[..n], b[..n], b[n], first.events, |a|);
    }
  }

  /**
    One more frame after ab, whose result is head followed by the result
    of b0 from s1 shifted by k frames.
   */
  lemma ConcatStep(c: Config, s: State, s1: State, ab: seq<real>, b0: seq<real>, x: real, head: seq<Event>, k: nat)
    requires |ab| == k + |b0|
    requires Process(c, s, ab) == Block(Process(c, s1, b0).state, head + Shift(Process(c, s1, b0).events, k))
    ensures Process(c, s, ab + [x]) ==
              Block(Process(c, s1, b0 + [x]).state, head + Shift(Process(c, s1, b0 + [x]).events, k))
  {
    var mid := Process(c, s1, b0);
    var r := Step(c, mid.state, x);
    var tail := mid.events + Emit(r.msg, |b0|);
    SnocBlock(c, s1, b0, x, mid.state, mid.events);
    var after := Process(c, s1, b0 + [x]);
    assert after == Block(r.next, tail);
    SnocBlock(c, s, ab, x, mid.state, head + Shift(mid.events, k));
    var whole := Process(c, s, ab + [x]);
    assert whole == Block(r.next, (head + Shift(mid.events, k)) + Emit(r.msg, k + |b0|));
    ShiftedSnoc(head, mid.events, r.msg, k, |b0|);
    assert whole.events == head + Shift(tail, k);
  }

  /** ProcessSnoc for a block whose result is already known by name. */
  lemma SnocBlock(c: Config, s: State, xs: seq<real>, x: real, st: State, evs: seq<Event>)
    requires Process(c, s, xs) == Block(st, evs)
    ensures Process(c, s, xs + [x]) == Block(Step(c, st, x).next, evs + Emit(Step(c, st, x).msg, |xs|))
  {
    ProcessSnoc(c, s, xs, x);
  }

  /** Appending an event to the shifted part is appending its shifted copy. */
  lemma ShiftedSnoc(head: seq<Event>, tail: seq<Event>, msg: Option<Message>, k: nat, frame: nat)
    ensures (head + Shift(tail, k)) + Emit(msg, k + frame) == head + Shift(tail + Emit(msg, frame), k)
  {
    ShiftAppend(tail, Emit(msg, frame), k);
    ShiftEmit(msg, frame, k);
    Associative(head, Shift(tail, k), Emit(msg, k + frame));
  }

  lemma Associative<T>(x: seq<T>, y: seq<T>, z: seq<T>)
    ensures (x + y) + z == x + (y + z)
  {
  }

  lemma ShiftEmit(msg: Option<Message>, frame: nat, k: nat)
    ensures Shift(Emit(msg, frame), k) == Emit(msg, frame + k)
  {
  }

  lemma {:induction false} ShiftAppend(x: seq<Event>, y: seq<Event>, k: nat)
    ensures Shift(x + y, k) == Shift(x, k) + Shift(y, k)
  {
    if y != [] {
      var last := |y| - 1;
      assert (x + y)[..|x + y| - 1] == x + y[..last];
      ShiftAppend(x, y[..last], k);
      var e := Event(y[last].frame + k, y[last].data);
      Associative(Shift(x, k), Shift(y[..last], k), [e]);
    } else {
      assert x + y == x;
    }
  }

  /**
    Threshold 0.25, m = 2, channel 0x0A, note 0x24, fixed velocity, input
    [0.1, 0.3, 0.3, 0.1, 0.1, 0.1, 0.3]: Note On at 1, Note Off at 5,
    Note On at 6.
   */
  lemma WorkedTrace()
    ensures var c := Config(0.25, 2, 0x0A, 0x24, false);
            Process(c, Initial, [0.1, 0.3, 0.3, 0.1, 0.1, 0.1, 0.3]).events ==
              [Event(1, [0x9A, 0x24, 0x7F]), Event(5, [0x8A, 0x24, 0x7F]), Event(6, [0x9A, 0x24, 0x7F])]
  {
    var c := Config(0.25, 2, 0x0A, 0x24, false);
    var on, off := [0x9A, 0x24, 0x7F], [0x8A, 0x24, 0x7F];
    var x4 := [0.1, 0.3, 0.3, 0.1];
    WorkedTraceAttack();
    var x5 := x4 + [0.1];
    assert Process(c, Initial, x5) == Block(State(2, true), [Event(1, on)]) by {
      ProcessSnoc(c, Initial, x4, 0.1);
    }
    var x6 := x5 + [0.1];
    assert Process(c, Initial, x6) == Block(State(-1, false), [Event(1, on), Event(5, off)]) by {
      ProcessSnoc(c, Initial, x5, 0.1);
    }
    var x7 := x6 + [0.3];
    assert Process(c, Initial, x7).events == [Event(1, on), Event(5, off), Event(6, on)] by {
      ProcessSnoc(c, Initial, x6, 0.3);
    }
    assert x7 == [0.1, 0.3, 0.3, 0.1, 0.1, 0.1, 0.3];
  }

  /** The first four frames of the worked trace: the attack at offset 1, then counting. */
  lemma WorkedTraceAttack()
    ensures var c := Config(0.25, 2, 0x0A, 0x24, false);
            Process(c, Initial, [0.1, 0.3, 0.3, 0.1]) == Block(State(1, true), [Event(1, [0x9A, 0x24, 0x7F])])
  {
    var c := Config(0.25, 2, 0x0A, 0x24, false);
    var on := [0x9A, 0x24, 0x7F];
    var x1 := [0.1];
    assert Process(c, Initial, x1) == Block(State(0, false), []) by {
      ProcessSnoc(c, Initial, [], 0.1);
      assert [] + [0.1] == x1;
    }
    var x2 := x1 + [0.3];
    assert Process(c, Initial, x2) == Block(State(0, true), [Event(1, on)]) by {
      ProcessSnoc(c, Initial, x1, 0.3);
    }
    var x3 := x2 + [0.3];
    assert Process(c, Initial, x3) == Block(State(0, true), [Event(1, on)]) by {
      ProcessSnoc(c, Initial, x2, 0.3);
    }
    var x4 := x3 + [0.1];
    assert Process(c, Initial, x4) == Block(State(1, true), [Event(1, on)]) by {
      ProcessSnoc(c, Initial, x3, 0.1);
    }
    assert x4 == [0.1, 0.3, 0.3, 0.1];
  }
}

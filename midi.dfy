/**
  The three-byte MIDI 1.0 channel voice messages the detector writes:
  Note On (status 0x9n) and Note Off (status 0x8n), where n is the channel,
  followed by the key (note number) and the velocity.
 */
module Midi {

  type byte = x: int | 0 <= x < 256
  type nibble = x: int | 0 <= x < 16

  datatype Option<+T> = None | Some(value: T)

  /** One channel voice message: on selects Note On (0x9n) or Note Off (0x8n). */
  datatype Message = Message(on: bool, channel: nibble, key: byte, velocity: byte)

  const NoteOffStatus: byte := 0x80
  const NoteOnStatus: byte := 0x90

  /** The status byte: the message kind in the high nibble, the channel in the low one. */
  function StatusByte(on: bool, channel: nibble): (r: byte)
    ensures r / 16 == (if on then NoteOnStatus else NoteOffStatus) / 16
    ensures r % 16 == channel
  {
    (if on then NoteOnStatus else NoteOffStatus) + channel
  }

  /** The bytes of a message as they appear on the wire. */
  function Encode(m: Message): (r: seq<byte>)
    ensures |r| == 3
    ensures r[0] == StatusByte(m.on, m.channel)
    ensures r[1] == m.key && r[2] == m.velocity
  {
    [StatusByte(m.on, m.channel), m.key, m.velocity]
  }

  /** Reads back a Note On or Note Off message; anything else is None. */
  function Decode(bs: seq<byte>): (r: Option<Message>)
    ensures r.Some? <==> |bs| == 3 && NoteOffStatus <= bs[0] < NoteOnStatus + 16
  {
    if |bs| == 3 && NoteOffStatus <= bs[0] < NoteOnStatus + 16 then
      Some(Message(bs[0] >= NoteOnStatus, bs[0] % 16, bs[1], bs[2]))
    else
      None
  }

  /** Decoding an encoded message gives the message back. */
  lemma DecodeEncode(m: Message)
    ensures Decode(Encode(m)) == Some(m)
  {
  }

  /** Every byte string that decodes is the encoding of what it decodes to. */
  lemma EncodeDecode(bs: seq<byte>)
    requires Decode(bs).Some?
    ensures Encode(Decode(bs).value) == bs
  {
    var s := bs[0];
    assert StatusByte(s >= NoteOnStatus, s % 16) == s;
  }

  /**
    The status byte written with the bitwise expression of the source:
    0x80 | (on << 4) | (channel & 0xF).
   */
  lemma StatusByteIsBitwise(on: bool, channel: nibble)
    ensures StatusByte(on, channel) as bv8
         == 0x80 | ((if on then 1 else 0) as bv8 << 4) | (channel as bv8 & 0xF)
  {
    var low := channel as bv8;
    var high: bv8 := if on then 0x90 else 0x80;
    assert low as int == channel;
    assert low < 16;
    assert low & 0xF == low;
    assert high | low == high + low;
    assert 0x80 | ((if on then 1 else 0) as bv8 << 4) == high;
    assert (high + low) as int == StatusByte(on, channel);
  }
}

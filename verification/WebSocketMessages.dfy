/** Frames on the wire, and the messages a sequence of frames carries. */
module WebSocketMessages {
  import opened WebSocketFrames
  import Sequences

  // Frames.

  datatype LengthForm = Short | Medium | Long

  datatype Frame = Frame(fin: bool, opcode: nat, mask: Option<Bytes>, form: LengthForm, payload: Bytes)

  predicate FrameOk(f: Frame) {
    && f.opcode < 16
    && (f.mask.Some? ==> |f.mask.value| == 4)
    && match f.form
       case Short => |f.payload| < 126
       case Medium => |f.payload| < 0x1_0000
       case Long => |f.payload| < UINT64
  }

  function Two(bits: nat): (n: nat)
    ensures n > 0
  {
    if bits == 0 then 1 else 2 * Two(bits - 1)
  }

  /** Exclusive or, bit by bit. */
  function XorBits(a: nat, b: nat, bits: nat): (r: nat)
    ensures r < Two(bits)
  {
    if bits == 0 then 0
    else (if a % 2 == b % 2 then 0 else 1) + 2 * XorBits(a / 2, b / 2, bits - 1)
  }

  function Xor(a: Byte, b: Byte): Byte {
    assert Two(8) == 2 * Two(7) == 4 * Two(6) == 8 * Two(5) == 16 * Two(4) == 256;
    XorBits(a, b, 8)
  }

  function Masked(data: Bytes, mask: Bytes): Bytes
    requires |mask| == 4
  {
    seq(|data|, i requires 0 <= i < |data| => Xor(data[i], mask[i % 4]))
  }

  lemma {:induction false} XorBitsTwice(a: nat, b: nat, bits: nat)
    requires a < Two(bits)
    ensures XorBits(XorBits(a, b, bits), b, bits) == a
  {
    if bits > 0 {
      XorBitsTwice(a / 2, b / 2, bits - 1);
      var r := XorBits(a, b, bits);
      assert r / 2 == XorBits(a / 2, b / 2, bits - 1);
    }
  }

  lemma XorTwice(a: Byte, b: Byte)
    ensures Xor(Xor(a, b), b) == a
  {
    assert Two(8) == 2 * Two(7) == 4 * Two(6) == 8 * Two(5) == 16 * Two(4) == 256;
    XorBitsTwice(a, b, 8);
    hide XorBits;
  }

  /** Masking is its own inverse. */
  lemma MaskedTwice(data: Bytes, mask: Bytes)
    requires |mask| == 4
    ensures Masked(Masked(data, mask), mask) == data
  {
    forall i | 0 <= i < |data| ensures Xor(Xor(data[i], mask[i % 4]), mask[i % 4]) == data[i] {
      XorTwice(data[i], mask[i % 4]);
    }
  }

  function First(f: Frame): Byte
    requires f.opcode < 16
  {
    (if f.fin then 128 else 0) + f.opcode
  }

  function Second(f: Frame): (b: Byte)
    requires f.form.Short? ==> |f.payload| < 126
  {
    (if f.mask.Some? then 128 else 0)
    + match f.form case Short => |f.payload| case Medium => 126 case Long => 127
  }

  function LengthBytes(f: Frame): Bytes {
    match f.form
    case Short => []
    case Medium => ToBig(|f.payload|, 2)
    case Long => ToBig(|f.payload|, 8)
  }

  function MaskBytes(f: Frame): Bytes { if f.mask.Some? then f.mask.value else [] }

  function Raw(f: Frame): (r: Bytes)
    requires f.mask.Some? ==> |f.mask.value| == 4
    ensures |r| == |f.payload|
  {
    if f.mask.Some? then Masked(f.payload, f.mask.value) else f.payload
  }

  function Encode(f: Frame): Bytes
    requires FrameOk(f)
  {
    [First(f), Second(f)] + (LengthBytes(f) + (MaskBytes(f) + Raw(f)))
  }

  function EncodeAll(frames: seq<Frame>): Bytes
    requires forall i :: 0 <= i < |frames| ==> FrameOk(frames[i])
  {
    if frames == [] then [] else Encode(frames[0]) + EncodeAll(frames[1..])
  }

  // What frames do.

  datatype Message = Message(data: Bytes, binary: bool)

  /** What a connection has so far: the message under way, the messages handed to
      the handler, and the frames to be written. */
  datatype Session = Session(message: Bytes, binary: bool, delivered: seq<Message>, written: seq<Bytes>)

  /** The frame that the server writes: final, without a mask, with the shortest
      length form. */
  function Outgoing(opcode: nat, data: Bytes): Frame {
    Frame(true, opcode, None,
          if |data| < 126 then Short else if |data| < 0x1_0000 then Medium else Long, data)
  }

  function WireHeader(opcode: nat, size: nat): Bytes
    requires opcode < 16
  {
    if size < 126 then [128 + opcode, size]
    else if size < 0x1_0000 then [128 + opcode, 126] + ToBig(size, 2)
    else [128 + opcode, 127] + ToBig(size, 8)
  }

  lemma OutgoingIsFrame(opcode: nat, data: Bytes)
    requires opcode < 16 && |data| < UINT64
    ensures FrameOk(Outgoing(opcode, data))
    ensures WireHeader(opcode, |data|) + data == Encode(Outgoing(opcode, data))
  {
    var f := Outgoing(opcode, data);
    assert LengthBytes(f) + ([] + data) == LengthBytes(f) + data;
  }

  function Extended(s: Session, data: Bytes, fin: bool): Session {
    if fin then s.(message := [], delivered := s.delivered + [Message(s.message + data, s.binary)])
    else s.(message := s.message + data)
  }

  function Handle(s: Session, f: Frame): Session {
    if f.opcode == CONTINUATION then Extended(s, f.payload, f.fin)
    else if f.opcode == TEXT then Extended(s.(binary := false), f.payload, f.fin)
    else if f.opcode == BINARY then Extended(s.(binary := true), f.payload, f.fin)
    else if f.opcode == PING then s.(written := s.written + [WireHeader(PONG, |f.payload|), f.payload])
    else s
  }

  function HandleAll(s: Session, frames: seq<Frame>): Session
    decreases |frames|
  {
    if frames == [] then s else HandleAll(Handle(s, frames[0]), frames[1..])
  }

  // The reference: messages cut into fragments, with control frames in between.

  datatype Sending = Sending(binary: bool, fragments: seq<Bytes>)

  function Joined(fragments: seq<Bytes>): Bytes {
    if fragments == [] then [] else fragments[0] + Joined(fragments[1..])
  }

  predicate IsData(f: Frame) { f.opcode == CONTINUATION || f.opcode == TEXT || f.opcode == BINARY }

  function DataOnly(frames: seq<Frame>): (r: seq<Frame>)
    ensures forall i :: 0 <= i < |r| ==> IsData(r[i])
  {
    if frames == [] then []
    else (if IsData(frames[0]) then [frames[0]] else []) + DataOnly(frames[1..])
  }

  /** The pings of a sequence of frames, as what answers them. */
  function Pongs(frames: seq<Frame>): seq<Bytes> {
    if frames == [] then []
    else (if frames[0].opcode == PING then [WireHeader(PONG, |frames[0].payload|), frames[0].payload] else [])
         + Pongs(frames[1..])
  }

  /** The frames carry the rest of a message: continuation frames, the last one
      final. */
  predicate CarriesRest(frames: seq<Frame>, fragments: seq<Bytes>) {
    && |frames| == |fragments|
    && forall i :: 0 <= i < |frames| ==>
         && frames[i].opcode == CONTINUATION && frames[i].payload == fragments[i]
         && (frames[i].fin <==> i == |frames| - 1)
  }

  /** The frames carry a message, as section 5.4 of RFC 6455 has it: the first one
      says what kind of message it is. */
  predicate Carries(frames: seq<Frame>, m: Sending) {
    && |frames| == |m.fragments| > 0
    && frames[0].opcode == (if m.binary then BINARY else TEXT)
    && frames[0].payload == m.fragments[0]
    && (frames[0].fin <==> |frames| == 1)
    && CarriesRest(frames[1..], m.fragments[1..])
  }

  predicate CarriesAll(frames: seq<Frame>, ms: seq<Sending>)
    decreases |ms|
  {
    if ms == [] then frames == []
    else
      var k := |ms[0].fragments|;
      k <= |frames| && Carries(frames[..k], ms[0]) && CarriesAll(frames[k..], ms[1..])
  }

  function Received(ms: seq<Sending>): seq<Message> {
    if ms == [] then [] else [Message(Joined(ms[0].fragments), ms[0].binary)] + Received(ms[1..])
  }

  lemma {:induction false} HandleConcat(s: Session, a: seq<Frame>, b: seq<Frame>)
    ensures HandleAll(s, a + b) == HandleAll(HandleAll(s, a), b)
    decreases |a|
  {
    if a == [] {
      assert a + b == b;
    } else {
      HandleConcat(Handle(s, a[0]), a[1..], b);
      assert (a + b)[0] == a[0] && (a + b)[1..] == a[1..] + b;
    }
  }

  /** Control frames answer pings and change nothing else, wherever they stand. */
  lemma {:induction false} ControlFramesApart(s: Session, frames: seq<Frame>)
    ensures HandleAll(s, frames)
            == HandleAll(s, DataOnly(frames)).(written := s.written + Pongs(frames))
    decreases |frames|
  {
    if frames == [] {
      assert s.written + [] == s.written;
    } else {
      var f, rest := frames[0], frames[1..];
      ControlFramesApart(Handle(s, f), rest);
      DataKeepsWritten(s, DataOnly(frames));
      if IsData(f) {
        assert DataOnly(frames)[1..] == DataOnly(rest);
        assert [] + Pongs(rest) == Pongs(rest);
      } else {
        assert [] + DataOnly(rest) == DataOnly(rest);
        WrittenApart(Handle(s, f), s, DataOnly(rest));
        if f.opcode == PING {
          var p := [WireHeader(PONG, |f.payload|), f.payload];
          Sequences.Assoc(s.written, p, Pongs(rest));
        } else {
          assert [] + Pongs(rest) == Pongs(rest);
        }
      }
    }
  }

  lemma {:induction false} DataKeepsWritten(s: Session, frames: seq<Frame>)
    requires forall i :: 0 <= i < |frames| ==> IsData(frames[i])
    ensures HandleAll(s, frames).written == s.written
    decreases |frames|
  {
    if frames != [] {
      DataKeepsWritten(Handle(s, frames[0]), frames[1..]);
    }
  }

  lemma {:induction false} WrittenApart(s: Session, t: Session, frames: seq<Frame>)
    requires forall i :: 0 <= i < |frames| ==> IsData(frames[i])
    requires s == t.(written := s.written)
    ensures HandleAll(s, frames) == HandleAll(t, frames).(written := s.written)
    decreases |frames|
  {
    if frames != [] {
      WrittenApart(Handle(s, frames[0]), Handle(t, frames[0]), frames[1..]);
    }
  }

  lemma {:induction false} RestArrives(s: Session, frames: seq<Frame>, fragments: seq<Bytes>)
    requires CarriesRest(frames, fragments) && frames != []
    ensures HandleAll(s, frames)
            == s.(message := [], delivered := s.delivered + [Message(s.message + Joined(fragments), s.binary)])
    decreases |frames|
  {
    var s' := Handle(s, frames[0]);
    if |frames| == 1 {
      assert frames[1..] == [] && fragments[1..] == [];
      assert fragments[0] + [] == fragments[0];
      assert HandleAll(s', []) == s';
    } else {
      RestArrives(s', frames[1..], fragments[1..]);
      Sequences.Assoc(s.message, fragments[0], Joined(fragments[1..]));
    }
  }

  lemma {:induction false} MessageArrives(s: Session, frames: seq<Frame>, m: Sending)
    requires Carries(frames, m) && s.message == []
    ensures var t := HandleAll(s, frames);
            && t.message == [] && t.written == s.written
            && t.delivered == s.delivered + [Message(Joined(m.fragments), m.binary)]
  {
    var s' := Handle(s, frames[0]);
    assert [] + m.fragments[0] == m.fragments[0];
    if |frames| == 1 {
      assert frames[1..] == [] && m.fragments[1..] == [];
      assert m.fragments[0] + [] == m.fragments[0];
      assert HandleAll(s', []) == s';
    } else {
      RestArrives(s', frames[1..], m.fragments[1..]);
    }
  }

  lemma {:induction false} MessagesArrive(s: Session, frames: seq<Frame>, ms: seq<Sending>)
    requires CarriesAll(frames, ms) && s.message == []
    ensures var t := HandleAll(s, frames);
            t.message == [] && t.written == s.written && t.delivered == s.delivered + Received(ms)
    decreases |ms|
  {
    if ms != [] {
      var k := |ms[0].fragments|;
      var t := HandleAll(s, frames[..k]);
      MessageArrives(s, frames[..k], ms[0]);
      MessagesArrive(t, frames[k..], ms[1..]);
      HandleConcat(s, frames[..k], frames[k..]);
      assert frames == frames[..k] + frames[k..];
      Sequences.Assoc(s.delivered, [Message(Joined(ms[0].fragments), ms[0].binary)], Received(ms[1..]));
    } else {
      assert s.delivered + [] == s.delivered;
    }
  }

  /** The handler gets exactly the messages sent, whatever control frames come in
      between, and each ping is answered with its own payload. */
  lemma {:induction false} Reassembled(s: Session, frames: seq<Frame>, ms: seq<Sending>)
    requires CarriesAll(DataOnly(frames), ms) && s.message == []
    ensures var t := HandleAll(s, frames);
            t.delivered == s.delivered + Received(ms) && t.written == s.written + Pongs(frames)
  {
    ControlFramesApart(s, frames);
    MessagesArrive(s, DataOnly(frames), ms);
  }
}

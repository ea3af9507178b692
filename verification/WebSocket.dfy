/** A WebSocket connection: the state machine that reads frames, what is done with
    each, and the headers of the frames that are written. */
module WebSocket {
  import opened WebSocketFrames
  import opened WebSocketMessages
  import Sequences

  datatype ReadState = MiniHeader | Len16 | Len64 | Mask | Payload

  /** The size of the buffer that the payload is read into. */
  const BUFFER: nat := 4096

  /** The fields of a mini header, from its two bytes. */
  lemma {:induction false} HeaderBack(a: Byte, b: Byte)
    ensures var m := Swap16(Le16(a, b));
            && m / 0x8000 % 2 == a / 0x80 && m / 0x100 % 0x10 == a % 0x10
            && m / 0x80 % 2 == b / 0x80 && m % 0x80 == b % 0x80
  {
    BytesOf(a, b, 0, 0);
    var m: nat := 0x100 * (a as nat) + b;
    assert Swap16(Le16(a, b)) == m;
    hide Swap16, Le16, Byte0, Byte1;
    Divided(a, b);
    Fields(a / 0x80, a % 0x80, b / 0x80, b % 0x80);
  }

  lemma {:induction false} Fields(x: nat, y: nat, z: nat, w: nat)
    requires x < 2 && y < 0x80 && z < 2 && w < 0x80
    ensures var m := 0x100 * (0x80 * x + y) + (0x80 * z + w);
            m / 0x8000 % 2 == x && m / 0x80 % 2 == z && m % 0x80 == w
  {
    var m := 0x8000 * x + 0x100 * y + 0x80 * z + w;
    assert m / 0x8000 == x;
    assert m / 0x80 == 0x100 * x + 2 * y + z;
  }

  lemma {:induction false} FirstBack(f: Frame)
    requires FrameOk(f)
    ensures First(f) / 0x80 == (if f.fin then 1 else 0) && First(f) % 0x10 == f.opcode
    ensures Second(f) / 0x80 == (if f.mask.Some? then 1 else 0)
    ensures Second(f) % 0x80 == match f.form case Short => |f.payload| case Medium => 126 case Long => 127
  {
  }

  class Connection {
    var state: ReadState
    var mini_header: nat
    var has_mask: bool
    var remaining_length: nat
    var mask: Bytes
    var fragment: Bytes
    var message: Bytes
    var is_binary: bool
    var pong_received: bool
    var close_connection: bool
    var write_buffers: seq<Bytes>
    const max_payload_bytes: nat

    /** The messages that the handler got. */
    ghost var delivered: seq<Message>

    constructor (max_payload_bytes: nat)
      ensures state == MiniHeader && fragment == [] && |mask| == 4 && !close_connection
      ensures TheSession() == Session([], is_binary, [], [])
      ensures this.max_payload_bytes == max_payload_bytes
    {
      state, mini_header, has_mask, remaining_length, mask := MiniHeader, 0, false, 0, [0, 0, 0, 0];
      fragment, message, pong_received, close_connection := [], [], false, false;
      write_buffers, delivered := [], [];
      this.max_payload_bytes := max_payload_bytes;
    }

    ghost function TheSession(): Session
      reads this
    {
      Session(message, is_binary, delivered, write_buffers)
    }

    predicate IsFin()
      reads this
    {
      mini_header / 0x8000 % 2 == 1
    }

    function Opcode(): nat
      reads this
    {
      mini_header / 0x100 % 0x10
    }

    // Writing.

    /** The header of a final frame without a mask. */
    method BuildHeader(opcode: nat, size: nat) returns (header: Bytes)
      requires opcode < 16 && size < UINT64
      ensures header == WireHeader(opcode, size)
    {
      var buf := new Byte[10];
      buf[0], buf[1] := 0x80 + opcode, 0;
      if size < 126 {
        buf[1] := size;
        return buf[..2];
      } else if size < 0x1_0000 {
        buf[1] := 126;
        var n := Swap16(size);
        buf[2], buf[3] := Byte0(n), Byte1(n);
        StoreTwo(size);
        assert buf[..4] == buf[..2] + [Byte0(n), Byte1(n)];
        return buf[..4];
      } else {
        buf[1] := 127;
        var stored := Store64(Swap64(size));
        forall i | 0 <= i < 8 {
          buf[2 + i] := stored[i];
        }
        StoreEight(size);
        assert buf[..10] == [0x80 + opcode, 127] + stored;
        return buf[..10];
      }
    }

    method SendData(opcode: nat, msg: Bytes)
      requires opcode < 16 && |msg| < UINT64
      modifies this`write_buffers
      ensures write_buffers == old(write_buffers) + [WireHeader(opcode, |msg|), msg]
    {
      var header := BuildHeader(opcode, |msg|);
      write_buffers := write_buffers + [header];
      write_buffers := write_buffers + [msg];
    }

    // Reading.

    /** The connection has read part of the frame, and `rest` of it is to come. */
    ghost predicate Awaits(f: Frame, rest: Bytes)
      reads this
    {
      && FrameOk(f) && |mask| == 4 && !close_connection
      && (state != MiniHeader ==>
            IsFin() == f.fin && Opcode() == f.opcode && has_mask == f.mask.Some?)
      && (state != Payload ==> fragment == [])
      && match state
         case MiniHeader => rest == Encode(f)
         case Len16 => f.form.Medium? && rest == LengthBytes(f) + (MaskBytes(f) + Raw(f))
         case Len64 => f.form.Long? && rest == LengthBytes(f) + (MaskBytes(f) + Raw(f))
         case Mask => remaining_length == |f.payload| && rest == MaskBytes(f) + Raw(f)
         case Payload =>
           && remaining_length == |rest| && Raw(f) == fragment + rest
           && (has_mask ==> mask == f.mask.value)
    }

    /** How far the frame has come. */
    ghost function Left(): (nat, nat)
      reads this
    {
      match state
      case MiniHeader => (4, 0)
      case Len16 => (3, 0)
      case Len64 => (3, 0)
      case Mask => (2, 0)
      case Payload => (1, remaining_length)
    }

    /** One turn of the read loop, with `input` on the way: it takes what its
        state asks for, or as much of the payload as happens to come at once. */
    method DoRead(input: Bytes, ghost f: Frame, ghost rest: Bytes) returns (n: nat, done: bool)
      requires Awaits(f, rest) && rest <= input && f.opcode != CLOSE
      modifies this
      ensures n <= |rest| && TheSession() == if done then Handle(old(TheSession()), f) else old(TheSession())
      ensures close_connection <==> old(state) == Mask && |f.payload| > max_payload_bytes
      ensures done ==> n == |rest| && state == MiniHeader && fragment == [] && |mask| == 4 && !close_connection
      ensures close_connection ==> state == Mask && !done
      ensures !done && !close_connection ==> Awaits(f, rest[n..])
      ensures old(state) != Mask && old(state) != Payload ==> state != Payload && !done
      ensures !done && !close_connection ==>
                Left().0 < old(Left().0) || (Left().0 == old(Left().0) && Left().1 < old(Left().1))
    {
      done := false;
      match state
      case MiniHeader => n := ReadMiniHeader(input, f);
      case Len16 => n := ReadLen16(input, f);
      case Len64 => n := ReadLen64(input, f);
      case Mask => n := ReadMask(input, f);
      case Payload => n, done := ReadPayload(input, f, rest);
    }

    method ReadMiniHeader(input: Bytes, ghost f: Frame) returns (n: nat)
      requires FrameOk(f) && state == MiniHeader && Awaits(f, Encode(f)) && Encode(f) <= input
      modifies this`mini_header, this`has_mask, this`state, this`remaining_length
      ensures n == 2 && Awaits(f, Encode(f)[n..]) && state != MiniHeader && state != Payload
    {
      n := 2;
      assert input[0] == First(f) && input[1] == Second(f);
      assert Encode(f)[2..] == LengthBytes(f) + (MaskBytes(f) + Raw(f));
      HeaderBack(First(f), Second(f));
      FirstBack(f);
      mini_header := Swap16(Le16(input[0], input[1]));
      has_mask := mini_header / 0x80 % 2 == 1;
      if mini_header % 0x80 == 127 {
        state := Len64;
      } else if mini_header % 0x80 == 126 {
        state := Len16;
      } else {
        remaining_length := mini_header % 0x80;
        state := Mask;
        assert [] + (MaskBytes(f) + Raw(f)) == MaskBytes(f) + Raw(f);
      }
    }

    method ReadLen16(input: Bytes, ghost f: Frame) returns (n: nat)
      requires FrameOk(f) && state == Len16 && LengthBytes(f) + (MaskBytes(f) + Raw(f)) <= input
      requires Awaits(f, LengthBytes(f) + (MaskBytes(f) + Raw(f)))
      modifies this`state, this`remaining_length
      ensures n == 2 && Awaits(f, MaskBytes(f) + Raw(f)) && state == Mask
    {
      n := 2;
      LoadTwo(input[0], input[1]);
      Powers();
      BigDown(|f.payload|, 2);
      assert input[..2] == LengthBytes(f) && [input[0], input[1]] == input[..2];
      remaining_length := Swap16(Le16(input[0], input[1]));
      state := Mask;
    }

    method ReadLen64(input: Bytes, ghost f: Frame) returns (n: nat)
      requires FrameOk(f) && state == Len64 && LengthBytes(f) + (MaskBytes(f) + Raw(f)) <= input
      requires Awaits(f, LengthBytes(f) + (MaskBytes(f) + Raw(f)))
      modifies this`state, this`remaining_length
      ensures n == 8 && Awaits(f, MaskBytes(f) + Raw(f)) && state == Mask
    {
      n := 8;
      LoadEight(input[..8]);
      Powers();
      BigDown(|f.payload|, 8);
      assert input[..8] == LengthBytes(f);
      remaining_length := Swap64(Load64(input[..8]));
      state := Mask;
    }

    method ReadMask(input: Bytes, ghost f: Frame) returns (n: nat)
      requires FrameOk(f) && state == Mask && Awaits(f, MaskBytes(f) + Raw(f)) && MaskBytes(f) + Raw(f) <= input
      modifies this`state, this`mask, this`close_connection
      ensures close_connection <==> |f.payload| > max_payload_bytes
      ensures n == if close_connection then 0 else |MaskBytes(f)|
      ensures close_connection ==> state == Mask
      ensures !close_connection ==> Awaits(f, Raw(f)) && state == Payload
    {
      n := 0;
      assert [] + Raw(f) == Raw(f);
      if remaining_length > max_payload_bytes {
        close_connection := true;
      } else if has_mask {
        n := 4;
        assert input[..4] == MaskBytes(f);
        mask := input[..4];
        state := Payload;
      } else {
        state := Payload;
      }
    }

    method ReadPayload(input: Bytes, ghost f: Frame, ghost rest: Bytes) returns (n: nat, done: bool)
      requires state == Payload && Awaits(f, rest) && rest <= input && f.opcode != CLOSE
      modifies this
      ensures n <= |rest| && !close_connection && |mask| == 4
      ensures TheSession() == if done then Handle(old(TheSession()), f) else old(TheSession())
      ensures done ==> n == |rest| && state == MiniHeader && fragment == []
      ensures !done ==>
                state == Payload && Awaits(f, rest[n..]) && remaining_length < old(remaining_length)
    {
      var to_read := BUFFER;
      if remaining_length < to_read {
        to_read := remaining_length;
      }
      n :| n <= to_read && (to_read > 0 ==> n > 0);
      assert input[..n] == rest[..n] && rest == rest[..n] + rest[n..];
      Sequences.Assoc(fragment, rest[..n], rest[n..]);
      fragment := fragment + input[..n];
      remaining_length := remaining_length - n;
      done := remaining_length == 0;
      if done {
        assert fragment + [] == fragment && rest[n..] == [];
        HandleFragment(f);
        state := MiniHeader;
      }
    }

    /** Takes the mask off a complete fragment and does what its opcode says; the
        closing handshake is left out. */
    method HandleFragment(ghost f: Frame)
      requires FrameOk(f) && f.opcode != CLOSE && fragment == Raw(f) && |mask| == 4
      requires IsFin() == f.fin && Opcode() == f.opcode
      requires has_mask == f.mask.Some? && (has_mask ==> mask == f.mask.value)
      modifies this`fragment, this`message, this`is_binary, this`pong_received, this`write_buffers, this`delivered
      ensures TheSession() == Handle(old(TheSession()), f) && fragment == []
    {
      if has_mask {
        MaskedTwice(f.payload, mask);
        Unmask();
      }
      match Opcode() {
        case 0 =>
          Append();
        case 1 =>
          is_binary := false;
          Append();
        case 2 =>
          is_binary := true;
          Append();
        case 9 => SendData(PONG, fragment);
        case 10 => pong_received := true;
        case _ =>
      }
      fragment := [];
    }

    method Unmask()
      requires |mask| == 4
      modifies this`fragment
      ensures fragment == Masked(old(fragment), mask)
    {
      var i := 0;
      while i < |fragment|
        invariant 0 <= i <= |fragment| == |old(fragment)|
        invariant forall k :: 0 <= k < |fragment| ==>
            fragment[k] == if k < i then Xor(old(fragment)[k], mask[k % 4]) else old(fragment)[k]
      {
        fragment := fragment[i := Xor(fragment[i], mask[i % 4])];
        i := i + 1;
      }
    }

    method Append()
      modifies this`message, this`delivered
      ensures TheSession() == Extended(old(TheSession()), fragment, IsFin())
    {
      message := message + fragment;
      if IsFin() {
        delivered := delivered + [Message(message, is_binary)];
        message := [];
      }
    }

    /** Reads one frame, in as many turns as it takes. */
    method ReadFrame(input: Bytes, ghost f: Frame) returns (n: nat)
      requires FrameOk(f) && f.opcode != CLOSE && state == MiniHeader && Awaits(f, Encode(f)) && Encode(f) <= input
      modifies this
      ensures close_connection <==> |f.payload| > max_payload_bytes
      ensures !close_connection ==>
                && n == |Encode(f)| && state == MiniHeader && fragment == [] && |mask| == 4
                && TheSession() == Handle(old(TheSession()), f)
      ensures close_connection ==> TheSession() == old(TheSession())
    {
      ghost var all := Encode(f);
      n := 0;
      assert all[n..] == all;
      hide FrameOk, Handle, Encode, Awaits;
      var done := false;
      while !done && !close_connection
        invariant !done ==> TheSession() == old(TheSession())
        invariant n <= |all|
        invariant !done && !close_connection ==> Awaits(f, all[n..])
        invariant close_connection ==> |f.payload| > max_payload_bytes && !done
        invariant state == Payload || done ==> |f.payload| <= max_payload_bytes
        invariant done ==>
            n == |all| && state == MiniHeader && fragment == [] && |mask| == 4
            && TheSession() == Handle(old(TheSession()), f)
        decreases !done && !close_connection, Left().0, Left().1
      {
        var k;
        assert all[n..] <= input[n..];
        k, done := DoRead(input[n..], f, all[n..]);
        assert all[n..][k..] == all[n + k..];
        n := n + k;
      }
    }

    /** Reads a whole stream of frames that are not too long. */
    method ReadFrames(stream: Bytes, ghost frames: seq<Frame>)
      requires forall i :: 0 <= i < |frames| ==>
                 FrameOk(frames[i]) && frames[i].opcode != CLOSE && |frames[i].payload| <= max_payload_bytes
      requires stream == EncodeAll(frames)
      requires state == MiniHeader && fragment == [] && |mask| == 4 && !close_connection
      modifies this
      ensures state == MiniHeader && fragment == [] && !close_connection
      ensures TheSession() == HandleAll(old(TheSession()), frames)
    {
      hide FrameOk, Handle, Encode;
      var pos := 0;
      ghost var fs := frames;
      while pos < |stream|
        invariant 0 <= pos <= |stream| && state == MiniHeader && fragment == [] && |mask| == 4 && !close_connection
        invariant forall i :: 0 <= i < |fs| ==> FrameOk(fs[i]) && fs[i].opcode != CLOSE && |fs[i].payload| <= max_payload_bytes
        invariant stream[pos..] == EncodeAll(fs)
        invariant HandleAll(TheSession(), fs) == HandleAll(old(TheSession()), frames)
        decreases |stream| - pos
      {
        var n := ReadFrame(stream[pos..], fs[0]);
        EncodeNotEmpty(fs[0]);
        assert stream[pos + n..] == stream[pos..][n..];
        pos := pos + n;
        fs := fs[1..];
      }
      if fs != [] {
        EncodeNotEmpty(fs[0]);
        assert false;
      }
    }
  }

  lemma EncodeNotEmpty(f: Frame)
    requires FrameOk(f)
    ensures |Encode(f)| > 0
  {
  }

  /** A stream of frames that carry messages, with control frames in between, read
      from the start: the handler gets the messages, each ping is answered. */
  method Receive(stream: Bytes, max_payload_bytes: nat, ghost frames: seq<Frame>, ghost ms: seq<Sending>)
    returns (connection: Connection)
    requires forall i :: 0 <= i < |frames| ==>
               FrameOk(frames[i]) && frames[i].opcode != CLOSE && |frames[i].payload| <= max_payload_bytes
    requires stream == EncodeAll(frames) && CarriesAll(DataOnly(frames), ms)
    ensures connection.delivered == Received(ms) && connection.write_buffers == Pongs(frames)
  {
    connection := new Connection(max_payload_bytes);
    Reassembled(connection.TheSession(), frames, ms);
    connection.ReadFrames(stream, frames);
  }

  /** The length and the opcode that a reader gets back from a header written. */
  method HeaderReadBack(opcode: nat, data: Bytes) returns (read: Connection)
    requires opcode < 16 && |data| < UINT64
    ensures read.Opcode() == opcode && read.IsFin() && !read.has_mask
    ensures read.state == Mask && read.remaining_length == |data|
  {
    read := new Connection(|data|);
    var header := read.BuildHeader(opcode, |data|);
    ghost var f := Outgoing(opcode, data);
    OutgoingIsFrame(opcode, data);
    hide WireHeader, FrameOk, Outgoing;
    var input := header + data;
    Begins(f);
    var n := read.ReadMiniHeader(input, f);
    AfterHeader(read, f);
    if read.state == Len16 {
      n := read.ReadLen16(input[2..], f);
    } else if read.state == Len64 {
      n := read.ReadLen64(input[2..], f);
    }
    AtMask(read, f);
  }

  lemma Begins(f: Frame)
    requires FrameOk(f)
    ensures |Encode(f)| >= 2 && Encode(f)[2..] == LengthBytes(f) + (MaskBytes(f) + Raw(f))
  {
  }

  lemma AfterHeader(read: Connection, f: Frame)
    requires FrameOk(f) && read.state != MiniHeader && read.state != Payload && read.Awaits(f, Encode(f)[2..])
    ensures read.state == Len16 || read.state == Len64 ==> read.Awaits(f, LengthBytes(f) + (MaskBytes(f) + Raw(f)))
    ensures read.state == Mask ==> read.Awaits(f, MaskBytes(f) + Raw(f))
  {
    Begins(f);
    hide Encode, LengthBytes, MaskBytes, Raw;
  }

  lemma AtMask(read: Connection, f: Frame)
    requires FrameOk(f) && read.state == Mask && read.Awaits(f, MaskBytes(f) + Raw(f))
    ensures read.IsFin() == f.fin && read.Opcode() == f.opcode && read.has_mask == f.mask.Some?
    ensures read.remaining_length == |f.payload|
  {
  }
}

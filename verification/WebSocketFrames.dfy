/** WebSocket frames as sections 5.2 to 5.4 of RFC 6455 define them, and what a
    sequence of frames means. */
module WebSocketFrames {

  type Byte = b: int | 0 <= b < 256
  type Bytes = seq<Byte>

  datatype Option<+T> = None | Some(value: T)

  const UINT32: nat := 0x1_0000_0000
  const UINT64: nat := 0x1_0000_0000_0000_0000

  const CONTINUATION: nat := 0
  const TEXT: nat := 1
  const BINARY: nat := 2
  const CLOSE: nat := 8
  const PING: nat := 9
  const PONG: nat := 10

  // Numbers in memory: the processor keeps the low byte first, the network
  // wants it last.

  function Le16(a: Byte, b: Byte): nat { a + 0x100 * b }

  function Le32(a: Byte, b: Byte, c: Byte, d: Byte): (n: nat)
    ensures n < UINT32
  {
    a + 0x100 * b + 0x1_0000 * c + 0x100_0000 * d
  }

  function Byte0(n: nat): Byte { n % 0x100 }
  function Byte1(n: nat): Byte { Byte0(n / 0x100) }
  function Byte2(n: nat): Byte { Byte1(n / 0x100) }
  function Byte3(n: nat): Byte { Byte2(n / 0x100) }

  function Swap16(n: nat): nat
    requires n < 0x1_0000
  {
    Le16(Byte1(n), Byte0(n))
  }

  /** ntohl and htonl on a machine that keeps the low byte first. */
  function Swap32(n: nat): (m: nat)
    requires n < UINT32
    ensures m < UINT32
  {
    Le32(Byte3(n), Byte2(n), Byte1(n), Byte0(n))
  }

  /** A 64-bit number with its bytes turned round, half by half. */
  function Swap64(n: nat): (m: nat)
    requires n < UINT64
    ensures m < UINT64
  {
    Swap32(n % UINT32) * UINT32 + Swap32(n / UINT32)
  }

  function Store32(n: nat): Bytes
    requires n < UINT32
  {
    [Byte0(n), Byte1(n), Byte2(n), Byte3(n)]
  }

  function Store64(n: nat): Bytes
    requires n < UINT64
  {
    Store32(n % UINT32) + Store32(n / UINT32)
  }

  function Load64(s: Bytes): nat
    requires |s| == 8
  {
    Le32(s[0], s[1], s[2], s[3]) + UINT32 * Le32(s[4], s[5], s[6], s[7])
  }

  /** Network order, the high byte first: the number a sequence of bytes means. */
  function Big(s: Bytes): nat {
    if s == [] then 0 else 0x100 * Big(s[..|s| - 1]) + s[|s| - 1]
  }

  /** The number in so many bytes, the high byte first. */
  function ToBig(n: nat, size: nat): (s: Bytes)
    ensures |s| == size
  {
    if size == 0 then [] else ToBig(n / 0x100, size - 1) + [n % 0x100]
  }

  lemma {:induction false} BigStep(n: nat, size: nat)
    requires size > 0
    ensures Big(ToBig(n, size)) == 0x100 * Big(ToBig(n / 0x100, size - 1)) + n % 0x100
  {
    var s := ToBig(n, size);
    assert s[..|s| - 1] == ToBig(n / 0x100, size - 1);
  }

  function Power(size: nat): (p: nat)
    ensures p > 0
  {
    if size == 0 then 1 else 0x100 * Power(size - 1)
  }

  lemma {:induction false} BigDown(n: nat, size: nat)
    ensures Big(ToBig(n, size)) < Power(size)
    ensures n < Power(size) ==> Big(ToBig(n, size)) == n
  {
    if size > 0 {
      BigStep(n, size);
      BigDown(n / 0x100, size - 1);
    }
  }

  lemma {:induction false} Powers()
    ensures Power(2) == 0x1_0000 && Power(8) == UINT64
  {
    assert Power(4) == 0x100 * Power(3) == 0x1_0000 * Power(2) == UINT32;
    assert Power(8) == 0x100 * Power(7) == 0x1_0000 * Power(6) == 0x100_0000 * Power(5) == UINT32 * Power(4);
  }

  lemma {:induction false} BigMore(s: Bytes, b: Byte)
    ensures Big(s + [b]) == 0x100 * Big(s) + b
  {
    assert (s + [b])[..|s|] == s;
  }

  lemma {:induction false} BigFour(s: Bytes, a: Byte, b: Byte, c: Byte, d: Byte)
    ensures Big(s + [a, b, c, d]) == UINT32 * Big(s) + Le32(d, c, b, a)
  {
    BigMore(s, a);
    BigMore(s + [a], b);
    BigMore(s + [a] + [b], c);
    BigMore(s + [a] + [b] + [c], d);
    assert s + [a] + [b] + [c] + [d] == s + [a, b, c, d];
  }

  lemma {:induction false} Divided(q: nat, r: Byte)
    ensures (0x100 * q + r) / 0x100 == q && (0x100 * q + r) % 0x100 == r
  {
  }

  lemma {:induction false} BytesOf(a: Byte, b: Byte, c: Byte, d: Byte)
    ensures var n := Le32(a, b, c, d);
            Byte0(n) == a && Byte1(n) == b && Byte2(n) == c && Byte3(n) == d
  {
    var n2: nat := 0x100 * (d as nat) + c;
    var n1: nat := 0x100 * n2 + b;
    Divided(d, c);
    Divided(n2, b);
    Divided(n1, a);
    Divided(0, d);
    assert Le32(a, b, c, d) == 0x100 * n1 + a;
  }

  lemma {:induction false} Whole(n: nat)
    ensures n == 0x100 * (n / 0x100) + Byte0(n)
  {
  }

  lemma {:induction false} Split(n: nat)
    requires n < UINT32
    ensures n == Le32(Byte0(n), Byte1(n), Byte2(n), Byte3(n))
  {
    var n1 := n / 0x100;
    var n2 := n1 / 0x100;
    var n3 := n2 / 0x100;
    Whole(n);
    Whole(n1);
    Whole(n2);
    assert n3 < 0x100;
    assert Byte0(n3) == n3;
    assert Byte1(n) == Byte0(n1) && Byte2(n) == Byte0(n2) && Byte3(n) == Byte0(n3);
    hide Byte0, Byte1, Byte2, Byte3;
  }

  lemma {:induction false} Joined(low: nat, high: nat)
    requires low < UINT32
    ensures (low + UINT32 * high) % UINT32 == low && (low + UINT32 * high) / UINT32 == high
  {
  }

  lemma {:induction false} Turned(a: Byte, b: Byte, c: Byte, d: Byte)
    ensures Swap32(Le32(a, b, c, d)) == Le32(d, c, b, a)
    ensures Store32(Le32(a, b, c, d)) == [a, b, c, d]
  {
    BytesOf(a, b, c, d);
  }

  /** Reading two bytes into memory and turning them round gives the number they
      mean on the network. */
  lemma {:induction false} LoadTwo(a: Byte, b: Byte)
    ensures Le16(a, b) < 0x1_0000 && Swap16(Le16(a, b)) == Big([a, b])
  {
    BytesOf(a, b, 0, 0);
    BigMore([], a);
    BigMore([] + [a], b);
    assert [a, b] == [] + [a] + [b];
  }

  /** The same for eight bytes. */
  lemma {:induction false} LoadEight(s: Bytes)
    requires |s| == 8
    ensures Load64(s) < UINT64 && Swap64(Load64(s)) == Big(s)
  {
    hide Le32, Big, Swap32, Store32;
    var low, high := Le32(s[0], s[1], s[2], s[3]), Le32(s[4], s[5], s[6], s[7]);
    Joined(low, high);
    Turned(s[0], s[1], s[2], s[3]);
    Turned(s[4], s[5], s[6], s[7]);
    var first := [s[0], s[1], s[2], s[3]];
    BigFour([], s[0], s[1], s[2], s[3]);
    BigFour(first, s[4], s[5], s[6], s[7]);
    BigNone();
    assert [] + first == first && s == first + [s[4], s[5], s[6], s[7]];
  }

  lemma BigNone()
    ensures Big([]) == 0 && forall n :: ToBig(n, 0) == []
  {
  }

  lemma {:induction false} ToBigMore(n: nat, b: Byte, size: nat)
    ensures ToBig(0x100 * n + b, size + 1) == ToBig(n, size) + [b]
  {
    assert (0x100 * n + b) / 0x100 == n && (0x100 * n + b) % 0x100 == b;
  }

  lemma {:induction false} ToBigFour(n: nat, a: Byte, b: Byte, c: Byte, d: Byte, size: nat)
    ensures ToBig(UINT32 * n + Le32(d, c, b, a), size + 4) == ToBig(n, size) + [a, b, c, d]
  {
    var n1 := 0x100 * n + a;
    var n2 := 0x100 * n1 + b;
    var n3 := 0x100 * n2 + c;
    ToBigMore(n, a, size);
    ToBigMore(n1, b, size + 1);
    ToBigMore(n2, c, size + 2);
    ToBigMore(n3, d, size + 3);
    hide ToBig;
    assert 0x100 * n3 + d == UINT32 * n + Le32(d, c, b, a);
    assert ToBig(n, size) + [a] + [b] + [c] + [d] == ToBig(n, size) + [a, b, c, d];
  }

  /** Turning a number round and storing it puts its high byte first. */
  lemma {:induction false} StoreTwo(n: nat)
    requires n < 0x1_0000
    ensures [Byte0(Swap16(n)), Byte1(Swap16(n))] == ToBig(n, 2)
  {
    var low: nat, high: nat := n % 0x100, n / 0x100;
    assert high < 0x100 && n == 0x100 * high + low;
    hide Byte0, Byte1, Swap16, ToBig;
    TwoBytes(low, high);
  }

  lemma {:induction false} TwoBytes(low: nat, high: nat)
    requires low < 0x100 && high < 0x100
    ensures var m := Swap16(0x100 * high + low);
            [Byte0(m), Byte1(m)] == ToBig(0x100 * high + low, 2)
  {
    hide ToBig;
    ToBigMore(0, high, 0);
    ToBigMore(high, low, 1);
    BigNone();
    BytesOf(low, high, 0, 0);
    BytesOf(high, low, 0, 0);
    var n: nat := 0x100 * high + low;
    assert n == Le32(low, high, 0, 0);
    assert Swap16(n) == Le32(high, low, 0, 0);
    hide Byte0, Byte1, Swap16, Le32;
  }

  /** The same for eight bytes. */
  lemma {:induction false} StoreEight(n: nat)
    requires n < UINT64
    ensures Store64(Swap64(n)) == ToBig(n, 8)
  {
    EightBytes(n % UINT32, n / UINT32);
  }

  lemma {:induction false} EightBytes(low: nat, high: nat)
    requires low < UINT32 && high < UINT32
    ensures Store64(Swap64(low + UINT32 * high)) == ToBig(low + UINT32 * high, 8)
  {
    hide ToBig, Le32, Swap32, Store32, Byte0, Byte1, Byte2, Byte3;
    var a, b, c, d := Byte0(low), Byte1(low), Byte2(low), Byte3(low);
    var e, f, g, h := Byte0(high), Byte1(high), Byte2(high), Byte3(high);
    Split(low);
    Split(high);
    Turned(a, b, c, d);
    Turned(e, f, g, h);
    Turned(d, c, b, a);
    Turned(h, g, f, e);
    ToBigFour(0, h, g, f, e, 0);
    ToBigFour(high, d, c, b, a, 4);
    BigNone();
    Joined(low, high);
    Joined(Swap32(high), Swap32(low));
  }
}

/**
 * The byte protocol from the host to the Teensy (delaydetect.py:11-14 and the
 * struct.pack calls): single-byte opcodes, and configuration payloads made of
 * 32-bit signed integers packed with Python's struct module in the host's
 * native byte order ('7i' and '2i' carry no '!' prefix).
 */
module Protocol {
  import opened Wrappers

  type Byte = b: int | 0 <= b < 256

  const MESSAGE_CONFIG: Byte := 88              // tapping configuration
  const MESSAGE_DELAYDETECT_CONFIG: Byte := 66
  const MESSAGE_START: Byte := 77
  const MESSAGE_STOP: Byte := 55

  /** Number of integers in a tapping configuration ('7i'). */
  const TAP_CONFIG_WORDS: nat := 7

  /** The host's native byte order, which struct.pack uses without a '!' prefix. */
  datatype ByteOrder = LittleEndian | BigEndian

  const INT32_MIN: int := -0x8000_0000
  const INT32_MAX: int := 0x7fff_ffff

  /** The range struct.pack accepts for format character 'i'. */
  predicate IsInt32(v: int) {
    INT32_MIN <= v <= INT32_MAX
  }

  predicate AllInt32(vs: seq<int>) {
    forall k :: 0 <= k < |vs| ==> IsInt32(vs[k])
  }

  /** One 'i' field: the two's complement of v as four bytes in the given order. */
  function Encode32(v: int, order: ByteOrder): (r: seq<Byte>)
    requires IsInt32(v)
    ensures |r| == 4
  {
    var u := if v < 0 then v + 0x1_0000_0000 else v;
    var le := [u % 0x100, (u / 0x100) % 0x100, (u / 0x1_0000) % 0x100, u / 0x100_0000];
    if order == LittleEndian then le else [le[3], le[2], le[1], le[0]]
  }

  /** Reads back one 'i' field. */
  function Decode32(b: seq<Byte>, order: ByteOrder): (v: int)
    requires |b| == 4
    ensures IsInt32(v)
  {
    var le := if order == LittleEndian then b else [b[3], b[2], b[1], b[0]];
    var u: int := le[0] as int + 0x100 * (le[1] as int) + 0x1_0000 * (le[2] as int) + 0x100_0000 * (le[3] as int);
    if u >= 0x8000_0000 then u - 0x1_0000_0000 else u
  }

  lemma Decode32OfEncode32(v: int, order: ByteOrder)
    requires IsInt32(v)
    ensures Decode32(Encode32(v, order), order) == v
  {
    var u := if v < 0 then v + 0x1_0000_0000 else v;
    var q1, q2, q3 := u / 0x100, u / 0x1_0000, u / 0x100_0000;
    assert q2 == q1 / 0x100;
    assert q3 == q2 / 0x100;
    assert u == u % 0x100 + 0x100 * q1;
    assert q1 == q1 % 0x100 + 0x100 * q2;
    assert q2 == q2 % 0x100 + 0x100 * q3;
  }

  lemma DivModByte(a: int, q: int)
    requires 0 <= a < 0x100
    ensures (a + 0x100 * q) / 0x100 == q && (a + 0x100 * q) % 0x100 == a
  {
  }

  lemma Encode32OfDecode32(b: seq<Byte>, order: ByteOrder)
    requires |b| == 4
    ensures Encode32(Decode32(b, order), order) == b
  {
    var le := if order == LittleEndian then b else [b[3], b[2], b[1], b[0]];
    var a0, a1, a2, a3 := le[0] as int, le[1] as int, le[2] as int, le[3] as int;
    var u: int := a0 + 0x100 * a1 + 0x1_0000 * a2 + 0x100_0000 * a3;
    var q1 := a1 + 0x100 * a2 + 0x1_0000 * a3;
    var q2 := a2 + 0x100 * a3;
    assert u == a0 + 0x100 * q1;
    assert q1 == a1 + 0x100 * q2;
    assert q2 == a2 + 0x100 * a3;
    DivModByte(a0, q1);
    DivModByte(a1, q2);
    DivModByte(a2, a3);
    assert u / 0x1_0000 == q2 by {
      assert u / 0x1_0000 == (u / 0x100) / 0x100;
    }
    assert u / 0x100_0000 == a3 by {
      assert u / 0x100_0000 == (u / 0x1_0000) / 0x100;
    }
    var v := Decode32(b, order);
    assert (if v < 0 then v + 0x1_0000_0000 else v) == u;
  }

  /** struct.pack with a format of |vs| 'i' characters. */
  function Pack(vs: seq<int>, order: ByteOrder): (r: seq<Byte>)
    requires AllInt32(vs)
    ensures |r| == 4 * |vs|
  {
    if vs == [] then [] else Encode32(vs[0], order) + Pack(vs[1..], order)
  }

  /** struct.unpack with a format of |b| / 4 'i' characters. */
  function Unpack(b: seq<Byte>, order: ByteOrder): (vs: seq<int>)
    requires |b| % 4 == 0
    ensures |vs| == |b| / 4 && AllInt32(vs)
  {
    if b == [] then [] else [Decode32(b[..4], order)] + Unpack(b[4..], order)
  }

  lemma {:induction false} UnpackOfPack(vs: seq<int>, order: ByteOrder)
    requires AllInt32(vs)
    ensures Unpack(Pack(vs, order), order) == vs
  {
    if vs != [] {
      var p := Pack(vs, order);
      assert p[..4] == Encode32(vs[0], order);
      assert p[4..] == Pack(vs[1..], order);
      Decode32OfEncode32(vs[0], order);
      UnpackOfPack(vs[1..], order);
    }
  }

  /** The k-th packed field sits at bytes 4k .. 4k+3. */
  lemma {:induction false} PackField(vs: seq<int>, order: ByteOrder, k: nat)
    requires AllInt32(vs) && k < |vs|
    ensures Pack(vs, order)[4 * k..4 * k + 4] == Encode32(vs[k], order)
  {
    if k > 0 {
      PackField(vs[1..], order, k - 1);
      var p := Pack(vs, order);
      assert p[4 * k..4 * k + 4] == Pack(vs[1..], order)[4 * (k - 1)..4 * (k - 1) + 4];
    }
  }

  /** Two packed integers are the two encodings one after the other. */
  lemma PackPair(d1: int, d2: int, order: ByteOrder)
    requires IsInt32(d1) && IsInt32(d2)
    ensures Pack([d1, d2], order) == Encode32(d1, order) + Encode32(d2, order)
  {
    assert [d1, d2][1..] == [d2];
    assert [d1, d2][1..][1..] == [];
  }

  /** The messages the host sends; TapConfig and DelayConfig carry their payloads. */
  datatype Message =
    | Stop
    | Start
    | TapConfig(words: seq<int>)
    | DelayConfig(delay1: int, delay2: int)

  predicate WellFormed(m: Message) {
    match m
    case Stop => true
    case Start => true
    case TapConfig(words) => |words| == TAP_CONFIG_WORDS && AllInt32(words)
    case DelayConfig(d1, d2) => IsInt32(d1) && IsInt32(d2)
  }

  /** The bytes one message puts on the wire: the opcode byte, then the packed payload. */
  function Encode(m: Message, order: ByteOrder): (r: seq<Byte>)
    requires WellFormed(m)
    ensures |r| > 0
  {
    match m
    case Stop => [MESSAGE_STOP]
    case Start => [MESSAGE_START]
    case TapConfig(words) => [MESSAGE_CONFIG] + Pack(words, order)
    case DelayConfig(d1, d2) => [MESSAGE_DELAYDETECT_CONFIG] + Pack([d1, d2], order)
  }

  /** Length of the message whose opcode is op, or None for an unknown opcode. */
  function MessageLength(op: Byte): Option<nat> {
    if op == MESSAGE_STOP || op == MESSAGE_START then Some(1)
    else if op == MESSAGE_CONFIG then Some(1 + 4 * TAP_CONFIG_WORDS)
    else if op == MESSAGE_DELAYDETECT_CONFIG then Some(1 + 4 * 2)
    else None
  }

  /**
   * How a receiver reads the first message of a byte stream: the message and
   * the number of bytes it took, or None when the stream does not start with
   * a complete message.
   */
  function DecodeFirst(b: seq<Byte>, order: ByteOrder): (r: Option<(Message, nat)>)
    ensures r.Some? ==> 0 < r.value.1 <= |b| && WellFormed(r.value.0)
  {
    if b == [] || MessageLength(b[0]).None? || |b| < MessageLength(b[0]).value then None
    else
      var len := MessageLength(b[0]).value;
      var payload := Unpack(b[1..len], order);
      if b[0] == MESSAGE_STOP then Some((Stop, 1))
      else if b[0] == MESSAGE_START then Some((Start, 1))
      else if b[0] == MESSAGE_CONFIG then Some((TapConfig(payload), len))
      else Some((DelayConfig(payload[0], payload[1]), len))
  }

  /** Splits a whole byte stream into messages; None if it does not split exactly. */
  function DecodeAll(b: seq<Byte>, order: ByteOrder): Option<seq<Message>>
    decreases |b|
  {
    if b == [] then Some([])
    else match DecodeFirst(b, order)
      case None => None
      case Some((m, len)) =>
        match DecodeAll(b[len..], order)
        case None => None
        case Some(ms) => Some([m] + ms)
  }

  /** The bytes of a sequence of messages, sent one after the other. */
  function EncodeAll(ms: seq<Message>, order: ByteOrder): seq<Byte>
    requires forall k :: 0 <= k < |ms| ==> WellFormed(ms[k])
  {
    if ms == [] then [] else Encode(ms[0], order) + EncodeAll(ms[1..], order)
  }

  /** A message is read back from the head of any stream it starts. */
  lemma DecodeFirstOfEncode(m: Message, rest: seq<Byte>, order: ByteOrder)
    requires WellFormed(m)
    ensures DecodeFirst(Encode(m, order) + rest, order) == Some((m, |Encode(m, order)|))
  {
    var b := Encode(m, order) + rest;
    match m
    case Stop =>
    case Start =>
    case TapConfig(words) =>
      assert b[1..1 + 4 * TAP_CONFIG_WORDS] == Pack(words, order);
      UnpackOfPack(words, order);
    case DelayConfig(d1, d2) =>
      assert b[1..9] == Pack([d1, d2], order);
      UnpackOfPack([d1, d2], order);
  }

  /** Round trip: a stream written as a sequence of messages reads back as those messages, in order. */
  lemma {:induction false} DecodeAllOfEncodeAll(ms: seq<Message>, order: ByteOrder)
    requires forall k :: 0 <= k < |ms| ==> WellFormed(ms[k])
    ensures DecodeAll(EncodeAll(ms, order), order) == Some(ms)
  {
    if ms != [] {
      forall k | 0 <= k < |ms| - 1
        ensures WellFormed(ms[1..][k])
      {
        assert ms[1..][k] == ms[k + 1];
      }
      var e := Encode(ms[0], order);
      var tail := EncodeAll(ms[1..], order);
      assert EncodeAll(ms, order) == e + tail;
      DecodeFirstOfEncode(ms[0], tail, order);
      assert (e + tail)[|e|..] == tail;
      DecodeAllOfEncodeAll(ms[1..], order);
      assert [ms[0]] + ms[1..] == ms;
    }
  }

  /**
   * STOP followed by a configuration message reads back as exactly those two
   * messages.
   */
  lemma DecodeStopThen(m: Message, order: ByteOrder)
    requires WellFormed(m)
    ensures DecodeAll([MESSAGE_STOP] + Encode(m, order), order) == Some([Stop, m])
  {
    var ms := [Stop, m];
    assert ms[1..] == [m];
    assert EncodeAll(ms[1..][1..], order) == [];
    assert EncodeAll(ms, order) == [MESSAGE_STOP] + Encode(m, order);
    DecodeAllOfEncodeAll(ms, order);
  }
}

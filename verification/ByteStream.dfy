/** Big-endian integers as `CByteStream` writes and reads them.

    `uchar_t` is plain `char`, which is signed: before a byte is shifted and combined with `|` it
    is sign-extended to an `int`. A 32-bit word is modelled by its four bytes. */
module ByteStream {
  import opened Bits

  type byte = b: int | 0 <= b < 0x100

  datatype Word = Word(b3: byte, b2: byte, b1: byte, b0: byte) {
    function Value(): (n: nat)
      ensures n < 0x1_0000_0000
    {
      b3 * 0x100_0000 + b2 * 0x1_0000 + b1 * 0x100 + b0
    }
  }

  lemma {:induction false} OrBounded(a: nat, b: nat, k: nat)
    requires a < k && b < k && IsPowerOfTwo(k)
    ensures BitOr(a, b) < k
    decreases k
  {
    if a != 0 && b != 0 {
      OrBounded(a / 2, b / 2, k / 2);
    }
  }

  /** `|` on bytes. */
  function Or(a: byte, b: byte): byte {
    assert IsPowerOfTwo(0x10);
    OrBounded(a, b, 0x100);
    BitOr(a, b)
  }

  /** The conversion of a signed `char` to `int`. */
  function SignExtend(b: byte): Word {
    var s: byte := if b >= 0x80 then 0xFF else 0;
    Word(s, s, s, b)
  }

  /** `w << 8 * n`. */
  function ShiftLeft(w: Word, n: nat): Word
    requires n <= 3
  {
    match n
    case 0 => w
    case 1 => Word(w.b2, w.b1, w.b0, 0)
    case 2 => Word(w.b1, w.b0, 0, 0)
    case 3 => Word(w.b0, 0, 0, 0)
  }

  function OrWords(v: Word, w: Word): Word {
    Word(Or(v.b3, w.b3), Or(v.b2, w.b2), Or(v.b1, w.b1), Or(v.b0, w.b0))
  }

  /** The expression of `CByteStream::ReadUint32`. */
  function ShiftAndOr32(a: byte, b: byte, c: byte, d: byte): Word {
    OrWords(OrWords(OrWords(ShiftLeft(SignExtend(a), 3), ShiftLeft(SignExtend(b), 2)), ShiftLeft(SignExtend(c), 1)),
            SignExtend(d))
  }

  /** The expression of `CByteStream::ReadUint16`. */
  function ShiftAndOr16(a: byte, b: byte): Word {
    OrWords(ShiftLeft(SignExtend(a), 1), SignExtend(b))
  }

  /** What four bytes are read as: the lowest byte with the sign bit fills everything above it. */
  function ReadUint32(b: seq<byte>): (n: nat)
    requires |b| >= 4
    ensures n < 0x1_0000_0000
  {
    var b0: nat, b1: nat, b2: nat, b3: nat := b[3], b[2], b[1], b[0];
    if b0 >= 0x80 then 0xFFFF_FF00 + b0
    else if b1 >= 0x80 then 0xFFFF_0000 + b1 * 0x100 + b0
    else if b2 >= 0x80 then 0xFF00_0000 + b2 * 0x1_0000 + b1 * 0x100 + b0
    else b3 * 0x100_0000 + b2 * 0x1_0000 + b1 * 0x100 + b0
  }

  /** What two bytes are read as. */
  function ReadUint16(b: seq<byte>): (n: nat)
    requires |b| >= 2
    ensures n < 0x1_0000
  {
    var b0: nat, b1: nat := b[1], b[0];
    if b0 >= 0x80 then 0xFF00 + b0 else b1 * 0x100 + b0
  }

  /** `CByteStream::WriteInt32` on a non-negative number, and `WriteUint32`. */
  function WriteUint32(n: nat): (b: seq<byte>)
    requires n < 0x1_0000_0000
    ensures |b| == 4
  {
    [n / 0x100_0000 % 0x100, n / 0x1_0000 % 0x100, n / 0x100 % 0x100, n % 0x100]
  }

  /** `CByteStream::WriteUint16`. */
  function WriteUint16(n: nat): (b: seq<byte>)
    requires n < 0x1_0000
    ensures |b| == 2
  {
    [n / 0x100, n % 0x100]
  }

  // ----- network byte order -----

  /** The number that bytes spell, the most significant one first. */
  function BigEndian(b: seq<byte>): nat {
    if b == [] then 0 else 0x100 * BigEndian(b[..|b| - 1]) + b[|b| - 1] as nat
  }

  lemma FourBytes(b: seq<byte>)
    requires |b| == 4
    ensures BigEndian(b) == b[0] as nat * 0x100_0000 + b[1] as nat * 0x1_0000 + b[2] as nat * 0x100 + b[3] as nat
  {
    TwoBytes(b[..2]);
    assert b[..3][..2] == b[..2];
    assert BigEndian(b[..3]) == 0x100 * BigEndian(b[..2]) + b[2] as nat;
  }

  lemma TwoBytes(b: seq<byte>)
    requires |b| == 2
    ensures BigEndian(b) == b[0] as nat * 0x100 + b[1] as nat
  {
    assert b[..1][..0] == [];
    assert BigEndian(b[..1]) == 0x100 * BigEndian([]) + b[0] as nat;
  }

  /** Numbers are written in network byte order. */
  lemma WrittenBigEndian(n: nat)
    ensures n < 0x1_0000_0000 ==> BigEndian(WriteUint32(n)) == n
    ensures n < 0x1_0000 ==> BigEndian(WriteUint16(n)) == n
  {
    hide BigEndian;
    if n < 0x1_0000_0000 {
      Bytes(n);
      FourBytes(WriteUint32(n));
    }
    if n < 0x1_0000 {
      TwoBytes(WriteUint16(n));
    }
  }

  /** They are read in network byte order if no byte but the first has the sign bit. */
  lemma ReadBigEndian(b: seq<byte>)
    ensures |b| == 4 && b[1] < 0x80 && b[2] < 0x80 && b[3] < 0x80 ==> ReadUint32(b) == BigEndian(b)
    ensures |b| == 2 && b[1] < 0x80 ==> ReadUint16(b) == BigEndian(b)
  {
    hide BigEndian;
    if |b| == 4 {
      FourBytes(b);
    }
    if |b| == 2 {
      TwoBytes(b);
    }
  }

  // ----- when a number is read back as it was written -----

  lemma OrZero(x: byte)
    ensures Or(x, 0) == x && Or(0, x) == x
  {
  }

  lemma {:induction false} OrOnes(x: nat, k: nat)
    requires IsPowerOfTwo(k) && x < k
    ensures BitOr(x, k - 1) == k - 1 && BitOr(k - 1, x) == k - 1
    decreases k
  {
    if k > 1 {
      OrOnes(x / 2, k / 2);
      assert (k - 1) / 2 == k / 2 - 1;
    }
  }

  lemma OrFull(x: byte)
    ensures Or(x, 0xFF) == 0xFF && Or(0xFF, x) == 0xFF
  {
    assert IsPowerOfTwo(0x10);
    OrOnes(x, 0x100);
  }

  /** Exactly the 16-bit numbers that survive a write and a read: the low byte must not carry the
      sign bit, unless the high byte consists of ones. */
  predicate SelfDecoding16(n: nat) {
    n % 0x100 < 0x80 || n >= 0xFF00
  }

  /** The same for 32 bits: above every byte that carries the sign bit there are only ones. */
  predicate SelfDecoding32(n: nat) {
    && (n % 0x100 < 0x80 || n >= 0xFFFF_FF00)
    && (n % 0x1_0000 < 0x8000 || n >= 0xFFFF_0000)
    && (n % 0x100_0000 < 0x80_0000 || n >= 0xFF00_0000)
  }

  /** `|` with a byte that extends a sign. */
  lemma OrSign(x: byte, s: byte)
    requires s == 0 || s == 0xFF
    ensures Or(x, s) == if s == 0 then x else 0xFF
  {
    OrZero(x);
    OrFull(x);
  }

  function Sign(b: byte): (s: byte)
    ensures s == 0 || s == 0xFF
  {
    SignExtend(b).b3
  }

  lemma ShiftAndOr16Value(a: byte, b: byte)
    ensures ShiftAndOr16(a, b).Value() % 0x1_0000 == ReadUint16([a, b])
  {
    hide Or;
    var v := ShiftLeft(SignExtend(a), 1);
    assert v == Word(Sign(a), Sign(a), a, 0);
    OrSign(a, Sign(b));
    OrZero(b);
    var w := OrWords(v, SignExtend(b));
    assert w.b1 == if b >= 0x80 then 0xFF else a;
    assert w.b0 == b;
    LowHalf(w);
  }

  lemma LowHalf(w: Word)
    ensures w.Value() % 0x1_0000 == w.b1 as nat * 0x100 + w.b0 as nat
  {
    var high: nat, low: nat := w.b3 as nat * 0x100 + w.b2 as nat, w.b1 as nat * 0x100 + w.b0 as nat;
    ModIs(w.Value(), 0x1_0000, high, low);
  }

  /** `CByteStream::ReadUint16`: the expression, cut to 16 bits. */
  method DecodeUint16(buf: seq<byte>) returns (data: nat)
    requires |buf| >= 2
    ensures data == ReadUint16(buf)
  {
    hide ShiftAndOr16;
    data := ShiftAndOr16(buf[0], buf[1]).Value() % 0x1_0000;
    ShiftAndOr16Value(buf[0], buf[1]);
  }

  lemma Uint16RoundTrip(n: nat)
    requires n < 0x1_0000
    ensures ReadUint16(WriteUint16(n)) == n <==> SelfDecoding16(n)
  {
  }

  lemma ShiftAndOr32Value(a: byte, b: byte, c: byte, d: byte)
    ensures ShiftAndOr32(a, b, c, d).Value() == ReadUint32([a, b, c, d])
  {
    hide Or;
    OrZero(0);
    OrZero(b);
    OrZero(c);
    OrZero(d);
    OrSign(a, Sign(b));
    OrSign(a, Sign(c));
    OrSign(a, Sign(d));
    OrSign(0xFF, Sign(c));
    OrSign(0xFF, Sign(d));
    OrSign(b, Sign(c));
    OrSign(b, Sign(d));
    OrSign(c, Sign(d));
    var v := OrWords(ShiftLeft(SignExtend(a), 3), ShiftLeft(SignExtend(b), 2));
    assert v == Word(if b >= 0x80 then 0xFF else a, b, 0, 0);
    var w := OrWords(v, ShiftLeft(SignExtend(c), 1));
    assert w == Word(if c >= 0x80 then 0xFF else v.b3, if c >= 0x80 then 0xFF else b, c, 0);
    var x := OrWords(w, SignExtend(d));
    assert x == if d >= 0x80 then Word(0xFF, 0xFF, 0xFF, d) else Word(w.b3, w.b2, c, d);
  }

  /** `CByteStream::ReadUint32`. */
  method DecodeUint32(buf: seq<byte>) returns (data: nat)
    requires |buf| >= 4
    ensures data == ReadUint32(buf)
  {
    hide ShiftAndOr32;
    data := ShiftAndOr32(buf[0], buf[1], buf[2], buf[3]).Value();
    ShiftAndOr32Value(buf[0], buf[1], buf[2], buf[3]);
  }

  lemma Bytes(n: nat)
    requires n < 0x1_0000_0000
    ensures var b: seq<nat> := WriteUint32(n);
      && n == b[0] * 0x100_0000 + b[1] * 0x1_0000 + b[2] * 0x100 + b[3]
      && n % 0x100 == b[3]
      && n % 0x1_0000 == b[2] * 0x100 + b[3]
      && n % 0x100_0000 == b[1] * 0x1_0000 + b[2] * 0x100 + b[3]
  {
    var h := n / 0x100;
    var k := h / 0x100;
    assert n / 0x1_0000 == k && n / 0x100_0000 == k / 0x100 < 0x100;
    assert n == 0x100 * h + n % 0x100 && h == 0x100 * k + h % 0x100 && k == 0x100 * (k / 0x100) + k % 0x100;
    assert n % 0x1_0000 == 0x100 * (h % 0x100) + n % 0x100;
    assert n % 0x100_0000 == 0x1_0000 * (k % 0x100) + 0x100 * (h % 0x100) + n % 0x100;
  }

  /** `SelfDecoding32` in terms of the four bytes. */
  lemma SelfDecodingBytes(n: nat, a: byte, b: byte, c: byte, d: byte)
    requires n < 0x1_0000_0000
    requires n == a * 0x100_0000 + b * 0x1_0000 + c * 0x100 + d
    requires n % 0x100 == d && n % 0x1_0000 == c * 0x100 + d
    requires n % 0x100_0000 == b * 0x1_0000 + c * 0x100 + d
    ensures SelfDecoding32(n) <==>
      && (d >= 0x80 ==> a == b == c == 0xFF)
      && (c >= 0x80 ==> a == b == 0xFF)
      && (b >= 0x80 ==> a == 0xFF)
  {
    assert n >= 0xFFFF_FF00 <==> a == b == c == 0xFF;
    assert n >= 0xFFFF_0000 <==> a == b == 0xFF;
    assert n >= 0xFF00_0000 <==> a == 0xFF;
    assert n % 0x1_0000 < 0x8000 <==> c < 0x80;
    assert n % 0x100_0000 < 0x80_0000 <==> b < 0x80;
  }

  /** A number that does not survive comes back as a huge one. */
  lemma Uint32RoundTrip(n: nat)
    requires n < 0x1_0000_0000
    ensures ReadUint32(WriteUint32(n)) == n <==> SelfDecoding32(n)
    ensures !SelfDecoding32(n) ==> ReadUint32(WriteUint32(n)) >= 0xFF00_0000
  {
    hide WriteUint32, SelfDecoding32;
    var b := WriteUint32(n);
    Bytes(n);
    SelfDecodingBytes(n, b[0], b[1], b[2], b[3]);
  }
}

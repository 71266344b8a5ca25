/** Bytes, little-endian words, Python slicing and the uuid text form the
    Miniserver's binary tables rely on. */
module Wire {

  type Byte = x: int | 0 <= x < 256

  datatype Result<+T, +E> = Ok(value: T) | Err(error: E)

  datatype Option<+T> = None | Some(value: T)

  /** Python's `s[lo:hi]` for non-negative bounds: both are clamped to the length. */
  function Slice<T>(s: seq<T>, lo: nat, hi: nat): (r: seq<T>)
    ensures lo <= hi <= |s| ==> r == s[lo..hi]
  {
    var h := if hi <= |s| then hi else |s|;
    if lo <= h then s[lo..h] else []
  }

  lemma SliceOfSlice<T>(s: seq<T>, lo: nat, hi: nat, from: nat, to: nat)
    requires lo <= hi <= |s| && from <= to <= hi - lo
    ensures s[lo..hi][from..to] == s[lo + from..lo + to]
  {
    var a, b := s[lo..hi][from..to], s[lo + from..lo + to];
    assert |a| == |b| && forall k :: 0 <= k < |a| ==> a[k] == s[lo..hi][from + k] == s[lo + from + k] == b[k];
  }

  function U32(b: seq<Byte>): (n: nat)
    requires |b| == 4
    ensures n < 0x1_0000_0000
  {
    var b0: int, b1: int, b2: int, b3: int := b[0], b[1], b[2], b[3];
    b0 + 0x100 * b1 + 0x1_0000 * b2 + 0x100_0000 * b3
  }

  function U32Bytes(n: nat): (b: seq<Byte>)
    requires n < 0x1_0000_0000
    ensures |b| == 4
  {
    [n % 0x100, n / 0x100 % 0x100, n / 0x1_0000 % 0x100, n / 0x100_0000]
  }

  /** The little-endian length field is decoded to the number that was encoded ... */
  lemma U32RoundTrip(n: nat)
    requires n < 0x1_0000_0000
    ensures U32(U32Bytes(n)) == n
  {
    Quotients(n);
  }

  /** ... and no two 4-byte fields decode to the same number. */
  lemma U32BytesOfU32(b: seq<Byte>)
    requires |b| == 4
    ensures U32Bytes(U32(b)) == b
  {
    var b0: int, b1: int, b2: int, b3: int := b[0], b[1], b[2], b[3];
    var q2 := b2 + 0x100 * b3;
    var q1 := b1 + 0x100 * q2;
    var n := U32(b);
    assert n == b0 + 0x100 * q1;
    Digits(b0, q1);
    Digits(b1, q2);
    Digits(b2, b3);
    Quotients(n);
  }

  /** The first byte of a field counts least. */
  lemma U32IsLittleEndian(b: seq<Byte>)
    requires |b| == 4
    ensures U32(b) % 0x100 == b[0] && U32(b) / 0x100 % 0x100 == b[1]
    ensures U32(b) / 0x1_0000 % 0x100 == b[2] && U32(b) / 0x100_0000 == b[3]
  {
    U32BytesOfU32(b);
    assert U32Bytes(U32(b))[0] == b[0] && U32Bytes(U32(b))[1] == b[1]
        && U32Bytes(U32(b))[2] == b[2] && U32Bytes(U32(b))[3] == b[3];
  }

  lemma Digits(low: int, high: int)
    requires 0 <= low < 0x100
    ensures (low + 0x100 * high) / 0x100 == high && (low + 0x100 * high) % 0x100 == low
  {
  }

  lemma Quotients(n: nat)
    ensures n / 0x1_0000 == n / 0x100 / 0x100 && n / 0x100_0000 == n / 0x100 / 0x100 / 0x100
  {
  }

  /* ---- the uuid text form ---- */

  function HexDigit(d: int): (c: char)
    requires 0 <= d < 16
  {
    if d < 10 then (48 + d) as char else (87 + d) as char
  }

  function Hex(bytes: seq<Byte>): (s: string)
    ensures |s| == 2 * |bytes|
  {
    if bytes == [] then "" else [HexDigit(bytes[0] / 16), HexDigit(bytes[0] % 16)] + Hex(bytes[1..])
  }

  lemma HexDigitInjective(d: int, e: int)
    requires 0 <= d < 16 && 0 <= e < 16 && HexDigit(d) == HexDigit(e)
    ensures d == e
  {
    assert HexDigit(d) as int == HexDigit(e) as int;
  }

  lemma {:induction false} HexInjective(a: seq<Byte>, b: seq<Byte>)
    requires Hex(a) == Hex(b)
    ensures a == b
  {
    if a == [] {
    } else {
      assert |a| == |b|;
      assert Hex(a)[0] == Hex(b)[0] && Hex(a)[1] == Hex(b)[1];
      HexDigitInjective(a[0] / 16, b[0] / 16);
      HexDigitInjective(a[0] % 16, b[0] % 16);
      assert a[0] == b[0];
      assert Hex(a[1..]) == Hex(a)[2..] == Hex(b)[2..] == Hex(b[1..]);
      HexInjective(a[1..], b[1..]);
      assert a == [a[0]] + a[1..] && b == [b[0]] + b[1..];
    }
  }

  type Uuid = u: seq<Byte> | |u| == 16 witness seq(16, _ => 0)

  /** `uuid.UUID(bytes_le=...)` swaps the bytes of the three leading fields
      (section 4.1.2 of RFC 4122). */
  function BigEndian(u: Uuid): (b: Uuid)
  {
    [u[3], u[2], u[1], u[0], u[5], u[4], u[7], u[6]] + u[8..]
  }

  /** The 8-4-4-4-12 text with its last two groups run together. */
  function UuidText(u: Uuid): (s: string)
    ensures |s| == 35
  {
    var h := Hex(BigEndian(u));
    h[..8] + "-" + h[8..12] + "-" + h[12..16] + "-" + h[16..]
  }

  lemma Undashed(u: Uuid)
    ensures var s := UuidText(u); Hex(BigEndian(u)) == s[..8] + s[9..13] + s[14..18] + s[19..]
  {
    var h, s := Hex(BigEndian(u)), UuidText(u);
    assert s[..8] == h[..8] && s[9..13] == h[8..12] && s[14..18] == h[12..16] && s[19..] == h[16..];
  }

  /** Two uuids have the same text exactly when their sixteen bytes agree. */
  lemma UuidTextInjective(u: Uuid, v: Uuid)
    ensures UuidText(u) == UuidText(v) <==> u == v
  {
    if UuidText(u) == UuidText(v) {
      Undashed(u);
      Undashed(v);
      HexInjective(BigEndian(u), BigEndian(v));
      assert BigEndian(BigEndian(u)) == u && BigEndian(BigEndian(v)) == v;
    }
  }

  /* ---- what the text reads as ---- */

  /** A lower-case hexadecimal digit; -1 for any other character. */
  function DigitOf(c: char): int
  {
    if '0' <= c <= '9' then c as int - '0' as int
    else if 'a' <= c <= 'f' then c as int - 'a' as int + 10
    else -1
  }

  /** The number a hexadecimal text stands for, its first digit counting most. */
  function HexValue(s: string): int
  {
    if s == "" then 0 else 16 * HexValue(s[..|s| - 1]) + DigitOf(s[|s| - 1])
  }

  function TwoDigits(x: Byte): (s: string)
    ensures |s| == 2 && DigitOf(s[0]) == x / 16 && DigitOf(s[1]) == x % 16
  {
    [HexDigit(x / 16), HexDigit(x % 16)]
  }

  lemma ByteAppended(s: string, x: Byte)
    ensures HexValue(s + TwoDigits(x)) == 256 * HexValue(s) + x
  {
    var t := s + TwoDigits(x);
    assert t[..|t| - 1] == s + [TwoDigits(x)[0]];
    assert t[..|t| - 1][..|s|] == s;
  }

  lemma ByteReads(x: Byte)
    ensures HexValue(TwoDigits(x)) == x
  {
    ByteAppended("", x);
    assert "" + TwoDigits(x) == TwoDigits(x);
  }

  lemma {:induction false} HexAt(bytes: seq<Byte>, i: nat)
    requires i < |bytes|
    ensures Hex(bytes)[2 * i..2 * i + 2] == TwoDigits(bytes[i])
  {
    if i > 0 {
      HexAt(bytes[1..], i - 1);
      assert Hex(bytes) == TwoDigits(bytes[0]) + Hex(bytes[1..]);
    }
  }

  lemma TwoBytesRead(s: string, a: Byte, b: Byte)
    requires |s| == 4 && s[0..2] == TwoDigits(a) && s[2..4] == TwoDigits(b)
    ensures HexValue(s) == 256 * a + b
  {
    assert s == TwoDigits(a) + TwoDigits(b);
    ByteReads(a);
    ByteAppended(TwoDigits(a), b);
  }

  lemma FourBytesRead(s: string, a: Byte, b: Byte, c: Byte, d: Byte)
    requires |s| == 8
    requires s[0..2] == TwoDigits(a) && s[2..4] == TwoDigits(b) && s[4..6] == TwoDigits(c) && s[6..8] == TwoDigits(d)
    ensures HexValue(s) == 256 * (256 * (256 * a + b) + c) + d
  {
    assert s[..6] == s[..4] + TwoDigits(c) && s == s[..6] + TwoDigits(d);
    TwoBytesRead(s[..4], a, b);
    ByteAppended(s[..4], c);
    ByteAppended(s[..6], d);
  }

  /** The key of an event, character by character: hexadecimal digits but for dashes
      behind the 8th, 12th and 16th, in three little-endian fields and eight bytes in
      the order they came. */
  lemma UuidTextReads(u: Uuid)
    ensures var t := UuidText(u);
            && t[8] == '-' && t[13] == '-' && t[18] == '-'
            && (forall i :: 0 <= i < 35 && i != 8 && i != 13 && i != 18 ==> DigitOf(t[i]) >= 0)
            && HexValue(t[0..8]) == U32(u[0..4])
            && (var lo: int, hi: int := u[4], u[5]; HexValue(t[9..13]) == lo + 0x100 * hi)
            && (var lo: int, hi: int := u[6], u[7]; HexValue(t[14..18]) == lo + 0x100 * hi)
            && forall i :: 0 <= i < 8 ==> HexValue(t[19 + 2 * i..21 + 2 * i]) == u[8 + i]
  {
    var t, b := UuidText(u), BigEndian(u);
    TextPieces(u);
    Pieces(t, b);
    DigitsOnly(u);
    FieldsRead(t, b);
    var b0: int, b1: int, b2: int, b3: int := u[0], u[1], u[2], u[3];
    assert U32(u[0..4]) == b0 + 0x100 * b1 + 0x1_0000 * b2 + 0x100_0000 * b3;
    forall i | 0 <= i < 8 ensures HexValue(t[19 + 2 * i..21 + 2 * i]) == u[8 + i] {
      assert Shows(t, 19 + 2 * i, b[8 + i]);
      ByteReads(b[8 + i]);
    }
  }

  lemma FieldsRead(t: string, b: seq<Byte>)
    requires |t| == 35 && |b| == 16
    requires Shows(t, 0, b[0]) && Shows(t, 2, b[1]) && Shows(t, 4, b[2]) && Shows(t, 6, b[3])
    requires Shows(t, 9, b[4]) && Shows(t, 11, b[5]) && Shows(t, 14, b[6]) && Shows(t, 16, b[7])
    ensures var b0: int, b1: int, b2: int, b3: int := b[0], b[1], b[2], b[3];
            HexValue(t[0..8]) == 256 * (256 * (256 * b0 + b1) + b2) + b3
    ensures var b4: int, b5: int, b6: int, b7: int := b[4], b[5], b[6], b[7];
            HexValue(t[9..13]) == 256 * b4 + b5 && HexValue(t[14..18]) == 256 * b6 + b7
  {
    SliceOfSlice(t, 0, 8, 0, 2);
    SliceOfSlice(t, 0, 8, 2, 4);
    SliceOfSlice(t, 0, 8, 4, 6);
    SliceOfSlice(t, 0, 8, 6, 8);
    FourBytesRead(t[0..8], b[0], b[1], b[2], b[3]);
    SliceOfSlice(t, 9, 13, 0, 2);
    SliceOfSlice(t, 9, 13, 2, 4);
    TwoBytesRead(t[9..13], b[4], b[5]);
    SliceOfSlice(t, 14, 18, 0, 2);
    SliceOfSlice(t, 14, 18, 2, 4);
    TwoBytesRead(t[14..18], b[6], b[7]);
  }

  /** Which two characters show which byte. */
  predicate Shows(t: string, at: nat, x: Byte)
    requires at + 2 <= |t|
  {
    t[at..at + 2] == TwoDigits(x)
  }

  lemma Pieces(t: string, b: seq<Byte>)
    requires |t| == 35 && |b| == 16
    requires t[0..8] == Hex(b)[0..8] && t[9..13] == Hex(b)[8..12]
    requires t[14..18] == Hex(b)[12..16] && t[19..35] == Hex(b)[16..32]
    ensures Shows(t, 0, b[0]) && Shows(t, 2, b[1]) && Shows(t, 4, b[2]) && Shows(t, 6, b[3])
    ensures Shows(t, 9, b[4]) && Shows(t, 11, b[5]) && Shows(t, 14, b[6]) && Shows(t, 16, b[7])
    ensures forall i :: 0 <= i < 8 ==> Shows(t, 19 + 2 * i, b[8 + i])
  {
    FirstPieces(t, b);
    Piece(t, b, 9, 13, 1, 4, 9);
    Piece(t, b, 9, 13, 1, 5, 11);
    Piece(t, b, 14, 18, 2, 6, 14);
    Piece(t, b, 14, 18, 2, 7, 16);
    LastPieces(t, b);
  }

  lemma FirstPieces(t: string, b: seq<Byte>)
    requires |t| == 35 && |b| == 16 && t[0..8] == Hex(b)[0..8]
    ensures Shows(t, 0, b[0]) && Shows(t, 2, b[1]) && Shows(t, 4, b[2]) && Shows(t, 6, b[3])
  {
    Piece(t, b, 0, 8, 0, 0, 0);
    Piece(t, b, 0, 8, 0, 1, 2);
    Piece(t, b, 0, 8, 0, 2, 4);
    Piece(t, b, 0, 8, 0, 3, 6);
  }

  lemma LastPieces(t: string, b: seq<Byte>)
    requires |t| == 35 && |b| == 16 && t[19..35] == Hex(b)[16..32]
    ensures forall i :: 0 <= i < 8 ==> Shows(t, 19 + 2 * i, b[8 + i])
  {
    forall i | 0 <= i < 8 ensures Shows(t, 19 + 2 * i, b[8 + i]) {
      Piece(t, b, 19, 35, 3, 8 + i, 19 + 2 * i);
    }
  }

  /** The digits of byte `k` stand at `at`, `shift` dashes behind their place in the hex text. */
  lemma Piece(t: string, b: seq<Byte>, lo: nat, hi: nat, shift: nat, k: nat, at: nat)
    requires at == shift + 2 * k && shift <= lo <= at && at + 2 <= hi <= |t|
    requires k < |b| && hi - shift <= |Hex(b)|
    requires t[lo..hi] == Hex(b)[lo - shift..hi - shift]
    ensures Shows(t, at, b[k])
  {
    HexAt(b, k);
    var h := Hex(b);
    Inside(t, h, lo, hi, shift, at, at + 2);
    assert h[at - shift..at + 2 - shift] == TwoDigits(b[k]);
  }

  lemma TextPieces(u: Uuid)
    ensures var t, h := UuidText(u), Hex(BigEndian(u));
            && t[0..8] == h[0..8] && t[9..13] == h[8..12] && t[14..18] == h[12..16] && t[19..35] == h[16..32]
            && t[8] == '-' && t[13] == '-' && t[18] == '-'
  {
  }

  /** A slice of a slice that was copied with a shift. */
  lemma Inside<T>(t: seq<T>, h: seq<T>, lo: nat, hi: nat, shift: nat, a: nat, b: nat)
    requires shift <= lo <= a <= b <= hi <= |t| && hi - shift <= |h|
    requires t[lo..hi] == h[lo - shift..hi - shift]
    ensures t[a..b] == h[a - shift..b - shift]
  {
    SliceOfSlice(t, lo, hi, a - lo, b - lo);
    SliceOfSlice(h, lo - shift, hi - shift, a - lo, b - lo);
  }

  lemma DigitsOnly(u: Uuid)
    ensures forall i :: 0 <= i < 35 && i != 8 && i != 13 && i != 18 ==> DigitOf(UuidText(u)[i]) >= 0
  {
    HexIsDigits(BigEndian(u));
    TextPieces(u);
  }

  lemma {:induction false} HexIsDigits(bytes: seq<Byte>)
    ensures forall i :: 0 <= i < |Hex(bytes)| ==> DigitOf(Hex(bytes)[i]) >= 0
  {
    if bytes != [] {
      HexIsDigits(bytes[1..]);
      assert Hex(bytes) == TwoDigits(bytes[0]) + Hex(bytes[1..]);
    }
  }
}

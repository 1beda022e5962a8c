/** Unicode escapes: hexadecimal digits, surrogate pairs and UTF-8. */
module Unicode {
  import opened Bytes

  /** The value of a hexadecimal digit, or 0xFF for any other byte. */
  function HexValue(c: byte): byte {
    if IsDigit(c) then c - 0x30
    else if c == 0x61 || c == 0x41 then 0x0A
    else if c == 0x62 || c == 0x42 then 0x0B
    else if c == 0x63 || c == 0x43 then 0x0C
    else if c == 0x64 || c == 0x44 then 0x0D
    else if c == 0x65 || c == 0x45 then 0x0E
    else if c == 0x66 || c == 0x46 then 0x0F
    else 0xFF
  }

  /** The 16-bit unit written by four hexadecimal digits, assembled byte by byte. */
  function CodeUnit(h1: byte, h2: byte, h3: byte, h4: byte): bv32 {
    var hi := (h1 << 4) | h2;
    var lo := (h3 << 4) | h4;
    ((hi as bv32) << 8) | (lo as bv32)
  }

  predicate IsSurrogate(u: bv32) {
    u & 0xF800 == 0xD800
  }

  /** How the parser joins two escapes: all three parts are combined with OR. */
  function JoinPair(u: bv32, u2: bv32): bv32 {
    0x010000 | ((u & 0x3FF) << 10) | (u2 & 0x3FF)
  }

  /** The bytes written for one escaped character; the mask is what storing into a char does. */
  function Encode(u: bv32): (r: bytes)
    ensures 1 <= |r| <= 4
  {
    if u <= 0x7F then [(u & 0xFF) as bv8]
    else if u <= 0x7FF then
      [((0xC0 | (u >> 6)) & 0xFF) as bv8, ((0x80 | (u & 0x3F)) & 0xFF) as bv8]
    else if u <= 0xFFFF then
      [((0xE0 | (u >> 12)) & 0xFF) as bv8, ((0x80 | ((u >> 6) & 0x3F)) & 0xFF) as bv8,
       ((0x80 | (u & 0x3F)) & 0xFF) as bv8]
    else
      [((0xF0 | (u >> 18)) & 0xFF) as bv8, ((0x80 | ((u >> 12) & 0x3F)) & 0xFF) as bv8,
       ((0x80 | ((u >> 6) & 0x3F)) & 0xFF) as bv8, ((0x80 | (u & 0x3F)) & 0xFF) as bv8]
  }

  // ----- UTF-8 as section 4 of RFC 3629 defines it -----

  predicate IsTail(b: byte) {
    0x80 <= b <= 0xBF
  }

  /** One well-formed UTF-8 sequence: UTF8-1, UTF8-2, UTF8-3 or UTF8-4. */
  predicate IsUtf8Char(t: bytes) {
    || (|t| == 1 && t[0] <= 0x7F)
    || (|t| == 2 && 0xC2 <= t[0] <= 0xDF && IsTail(t[1]))
    || (|t| == 3 && IsTail(t[2])
        && ((t[0] == 0xE0 && 0xA0 <= t[1] <= 0xBF)
            || (0xE1 <= t[0] <= 0xEC && IsTail(t[1]))
            || (t[0] == 0xED && 0x80 <= t[1] <= 0x9F)
            || (0xEE <= t[0] <= 0xEF && IsTail(t[1]))))
    || (|t| == 4 && IsTail(t[2]) && IsTail(t[3])
        && ((t[0] == 0xF0 && 0x90 <= t[1] <= 0xBF)
            || (0xF1 <= t[0] <= 0xF3 && IsTail(t[1]))
            || (t[0] == 0xF4 && 0x80 <= t[1] <= 0x8F)))
  }

  /** The character number of a UTF-8 sequence (section 3 of RFC 3629). */
  function Decode(t: bytes): bv32
    requires IsUtf8Char(t)
  {
    if |t| == 1 then t[0] as bv32
    else if |t| == 2 then ((t[0] & 0x1F) as bv32 << 6) | (t[1] & 0x3F) as bv32
    else if |t| == 3 then
      ((t[0] & 0x0F) as bv32 << 12) | ((t[1] & 0x3F) as bv32 << 6) | (t[2] & 0x3F) as bv32
    else Join4(t[0], t[1], t[2], t[3])
  }

  function Join4(b0: byte, b1: byte, b2: byte, b3: byte): bv32 {
    ((b0 & 0x07) as bv32 << 18) | ((b1 & 0x3F) as bv32 << 12)
    | ((b2 & 0x3F) as bv32 << 6) | (b3 & 0x3F) as bv32
  }

  // Bit facts, stated on words so that each is a single bit-vector query.

  lemma TwoByteBits(u: bv32, b0: byte, b1: byte)
    requires 0x80 <= u <= 0x7FF
    requires b0 == ((0xC0 | (u >> 6)) & 0xFF) as bv8
    requires b1 == ((0x80 | (u & 0x3F)) & 0xFF) as bv8
    ensures 0xC2 <= b0 <= 0xDF && 0x80 <= b1 <= 0xBF
    ensures ((b0 & 0x1F) as bv32 << 6) | (b1 & 0x3F) as bv32 == u
  {
  }

  lemma ThreeByteBits(u: bv32, b0: byte, b1: byte, b2: byte)
    requires 0x800 <= u <= 0xFFFF && !(0xD800 <= u <= 0xDFFF)
    requires b0 == ((0xE0 | (u >> 12)) & 0xFF) as bv8
    requires b1 == ((0x80 | ((u >> 6) & 0x3F)) & 0xFF) as bv8
    requires b2 == ((0x80 | (u & 0x3F)) & 0xFF) as bv8
    ensures 0xE0 <= b0 <= 0xEF && 0x80 <= b1 <= 0xBF && 0x80 <= b2 <= 0xBF
    ensures (b0 == 0xE0 ==> 0xA0 <= b1) && (b0 == 0xED ==> b1 <= 0x9F)
    ensures ((b0 & 0x0F) as bv32 << 12) | ((b1 & 0x3F) as bv32 << 6) | (b2 & 0x3F) as bv32 == u
  {
  }

  lemma FourByteRange(u: bv32, b0: byte, b1: byte, b2: byte, b3: byte)
    requires 0x10000 <= u <= 0x10FFFF
    requires b0 == ((0xF0 | (u >> 18)) & 0xFF) as bv8
    requires b1 == ((0x80 | ((u >> 12) & 0x3F)) & 0xFF) as bv8
    requires b2 == ((0x80 | ((u >> 6) & 0x3F)) & 0xFF) as bv8
    requires b3 == ((0x80 | (u & 0x3F)) & 0xFF) as bv8
    ensures 0xF0 <= b0 <= 0xF4
    ensures 0x80 <= b1 <= 0xBF && 0x80 <= b2 <= 0xBF && 0x80 <= b3 <= 0xBF
    ensures (b0 == 0xF0 ==> 0x90 <= b1) && (b0 == 0xF4 ==> b1 <= 0x8F)
  {
  }

  lemma FourByteBits(u: bv32, b0: byte, b1: byte, b2: byte, b3: byte)
    requires u <= 0x10FFFF
    requires b0 == ((0xF0 | (u >> 18)) & 0xFF) as bv8
    requires b1 == ((0x80 | ((u >> 12) & 0x3F)) & 0xFF) as bv8
    requires b2 == ((0x80 | ((u >> 6) & 0x3F)) & 0xFF) as bv8
    requires b3 == ((0x80 | (u & 0x3F)) & 0xFF) as bv8
    ensures Join4(b0, b1, b2, b3) == u
  {
  }

  lemma ThreeByteChar(e: bytes)
    requires |e| == 3 && 0xE0 <= e[0] <= 0xEF && IsTail(e[1]) && IsTail(e[2])
    requires (e[0] == 0xE0 ==> 0xA0 <= e[1]) && (e[0] == 0xED ==> e[1] <= 0x9F)
    ensures IsUtf8Char(e)
  {
  }

  lemma FourByteChar(e: bytes)
    requires |e| == 4 && 0xF0 <= e[0] <= 0xF4 && IsTail(e[1]) && IsTail(e[2]) && IsTail(e[3])
    requires (e[0] == 0xF0 ==> 0x90 <= e[1]) && (e[0] == 0xF4 ==> e[1] <= 0x8F)
    ensures IsUtf8Char(e)
  {
  }

  lemma EncodeDecodes2(u: bv32, e: bytes)
    requires 0x80 <= u <= 0x7FF
    requires e == Encode(u)
    ensures IsUtf8Char(e) && Decode(e) == u
  {
    TwoByteBits(u, e[0], e[1]);
  }

  lemma EncodeDecodes3(u: bv32, e: bytes)
    requires 0x800 <= u <= 0xFFFF && !(0xD800 <= u <= 0xDFFF)
    requires e == Encode(u)
    ensures IsUtf8Char(e) && Decode(e) == u
  {
    assert IsUtf8Char(e) by {
      ThreeByteBits(u, e[0], e[1], e[2]);
      ThreeByteChar(e);
    }
    ThreeByteBits(u, e[0], e[1], e[2]);
  }

  lemma EncodesFourByteChar(u: bv32, e: bytes)
    requires 0x10000 <= u <= 0x10FFFF
    requires e == Encode(u)
    ensures |e| == 4 && IsUtf8Char(e)
  {
    FourByteRange(u, e[0], e[1], e[2], e[3]);
    FourByteChar(e);
  }

  lemma EncodeDecodes4(u: bv32, e: bytes)
    requires 0x10000 <= u <= 0x10FFFF
    requires e == Encode(u)
    ensures IsUtf8Char(e) && Decode(e) == u
  {
    EncodesFourByteChar(u, e);
    FourByteBits(u, e[0], e[1], e[2], e[3]);
  }

  /** Encoding any scalar value gives well-formed UTF-8 that decodes back to it. */
  lemma EncodeDecodes(u: bv32)
    requires u <= 0x10FFFF && !(0xD800 <= u <= 0xDFFF)
    ensures IsUtf8Char(Encode(u)) && Decode(Encode(u)) == u
  {
    if u <= 0x7F {
    } else if u <= 0x7FF {
      EncodeDecodes2(u, Encode(u));
    } else if u <= 0xFFFF {
      EncodeDecodes3(u, Encode(u));
    } else {
      EncodeDecodes4(u, Encode(u));
    }
  }

  /** The character number of a surrogate pair (section 2.2 of RFC 2781). */
  function PairValue(hi: bv32, lo: bv32): bv32 {
    0x10000 + (((hi - 0xD800) << 10) + (lo - 0xDC00))
  }

  lemma PairBits(hi: bv32, lo: bv32)
    requires 0xD800 <= hi <= 0xDBFF && 0xDC00 <= lo <= 0xDFFF
    ensures hi - 0xD800 == hi & 0x3FF && lo - 0xDC00 == lo & 0x3FF
    ensures ((hi & 0x3FF) << 10) + (lo & 0x3FF) == ((hi & 0x3FF) << 10) | (lo & 0x3FF)
  {
  }

  lemma CarryBit(hi: bv32, lo: bv32)
    ensures 0x10000 + (((hi & 0x3FF) << 10) | (lo & 0x3FF)) == 0x10000 | ((hi & 0x3FF) << 10) | (lo & 0x3FF)
            <==> hi & 0x40 == 0
  {
  }

  /** The OR in JoinPair agrees with the standard's sum exactly when bit 6 of the first unit is 0. */
  lemma JoinPairIsPairValue(hi: bv32, lo: bv32)
    requires 0xD800 <= hi <= 0xDBFF
    requires 0xDC00 <= lo <= 0xDFFF
    ensures JoinPair(hi, lo) == PairValue(hi, lo) <==> hi & 0x40 == 0
  {
    PairBits(hi, lo);
    CarryBit(hi, lo);
  }

  lemma JoinPairRange(u: bv32, u2: bv32)
    ensures 0x10000 <= JoinPair(u, u2) <= 0xFFFFF
  {
  }

  /** The mask tests exactly for the surrogate range, and a unit never exceeds 16 bits. */
  lemma CodeUnitRange(h1: byte, h2: byte, h3: byte, h4: byte)
    ensures CodeUnit(h1, h2, h3, h4) <= 0xFFFF
    ensures IsSurrogate(CodeUnit(h1, h2, h3, h4)) <==> 0xD800 <= CodeUnit(h1, h2, h3, h4) <= 0xDFFF
  {
    SurrogateMask(CodeUnit(h1, h2, h3, h4));
  }

  lemma SurrogateMask(u: bv32)
    requires u <= 0xFFFF
    ensures u & 0xF800 == 0xD800 <==> 0xD800 <= u <= 0xDFFF
  {
  }
}

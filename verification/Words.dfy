/** 32-bit words as integers. A lemma here takes its word as a variable with an equation: terms that mix shifts with
    conversions to integers are costly to reason about. */
module Words {
  lemma ShiftByOctet(x: bv32)
    requires x <= 0xFF_FFFF
    ensures (x << 8) as int == 256 * (x as int)
  {
  }

  lemma FillOctet(x: bv32, b: bv8)
    ensures ((x << 8) | (b as bv32)) as int == (x << 8) as int + b as int
  {
  }

  lemma AppendByte(y: bv32, x: bv32, b: bv8)
    requires x <= 0xFF_FFFF && y == (x << 8) | (b as bv32)
    ensures y as int == 256 * (x as int) + b as int
  {
    ShiftByOctet(x);
    FillOctet(x, b);
  }

  lemma ByteOf(y: bv32, x: bv32, octet: bv32) returns (b: bv8)
    requires octet <= 255 && y == (x << 8) | octet
    ensures octet == b as bv32 && y == (x << 8) | (b as bv32)
  {
    b := octet as bv8;
  }

  lemma WidenByte(octet: bv32, b: bv8)
    requires octet == b as bv32
    ensures octet as int == b as int
  {
  }

  /** Shifting by eight and or-ing an octet in appends a base-256 digit, without overflow. */
  lemma AppendOctet(y: bv32, x: bv32, octet: bv32)
    requires x <= 0xFF_FFFF && octet <= 255 && y == (x << 8) | octet
    ensures y as int == 256 * (x as int) + octet as int
  {
    var b := ByteOf(y, x, octet);
    AppendByte(y, x, b);
    WidenByte(octet, b);
  }
}

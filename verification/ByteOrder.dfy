/** include/byteorder.h on a little-endian processor. */
module ByteOrder {
  import opened Bytes

  function Htonl(x: u32): u32 {
    Word(Digit(x, 3), Digit(x, 2), Digit(x, 1), Digit(x, 0))
  }

  function Htons(x: u16): u16 {
    HalfWord(x / 0x100, x % 0x100)
  }

  /** The shift-and-mask expressions of the header, on the bits. */
  function HtonlBits(x: bv32): bv32 {
    ((x & 0xff) << 24) |
    ((x & 0xff00) << 8) |
    ((x & 0xff0000) >> 8) |
    ((x & 0xff000000) >> 24)
  }

  function HtonsBits(x: bv16): bv16 {
    ((x & 0xff) << 8) | ((x & 0xff00) >> 8)
  }

  /** Bytes joined into a word, on bits and as a number. */
  lemma Joined(d0: bv8, d1: bv8, d2: bv8, d3: bv8, w: bv32)
    requires w == (d0 as bv32) | ((d1 as bv32) << 8) | ((d2 as bv32) << 16) | ((d3 as bv32) << 24)
    ensures w as int == d0 as int + 0x100 * (d1 as int) + 0x1_0000 * (d2 as int) + 0x100_0000 * (d3 as int)
  {
  }

  /** Two words whose bytes are in opposite order. */
  lemma Reversed(d0: byte, d1: byte, d2: byte, d3: byte, w: int, r: int)
    requires w == d0 as int + 0x100 * d1 as int + 0x1_0000 * d2 as int + 0x100_0000 * d3 as int
    requires r == d3 as int + 0x100 * d2 as int + 0x1_0000 * d1 as int + 0x100_0000 * d0 as int
    ensures 0 <= w < 0x1_0000_0000 && r == Htonl(w)
  {
    DigitsOfWord(d0, d1, d2, d3);
  }

  lemma BothOrders(d0: bv8, d1: bv8, d2: bv8, d3: bv8, w: bv32, r: bv32)
    requires w == (d0 as bv32) | ((d1 as bv32) << 8) | ((d2 as bv32) << 16) | ((d3 as bv32) << 24)
    requires r == (d3 as bv32) | ((d2 as bv32) << 8) | ((d1 as bv32) << 16) | ((d0 as bv32) << 24)
    ensures r as int == Htonl(w as int)
  {
    Joined(d0, d1, d2, d3, w);
    Joined(d3, d2, d1, d0, r);
    Reversed(d0 as int, d1 as int, d2 as int, d3 as int, w as int, r as int);
  }

  lemma BytesOf(x: bv32) returns (d0: bv8, d1: bv8, d2: bv8, d3: bv8)
    ensures x == (d0 as bv32) | ((d1 as bv32) << 8) | ((d2 as bv32) << 16) | ((d3 as bv32) << 24)
  {
    d0, d1, d2, d3 := (x & 0xff) as bv8, ((x >> 8) & 0xff) as bv8, ((x >> 16) & 0xff) as bv8, (x >> 24) as bv8;
  }

  lemma BitsReversed(d0: bv8, d1: bv8, d2: bv8, d3: bv8, x: bv32)
    requires x == (d0 as bv32) | ((d1 as bv32) << 8) | ((d2 as bv32) << 16) | ((d3 as bv32) << 24)
    ensures HtonlBits(x) == (d3 as bv32) | ((d2 as bv32) << 8) | ((d1 as bv32) << 16) | ((d0 as bv32) << 24)
  {
  }

  /** The expression of the header does on the bits what `Htonl` does on digits. */
  lemma HtonlOnBits(x: bv32)
    ensures HtonlBits(x) as int == Htonl(x as int)
  {
    var d0, d1, d2, d3 := BytesOf(x);
    BitsReversed(d0, d1, d2, d3, x);
    BothOrders(d0, d1, d2, d3, x, HtonlBits(x));
  }

  lemma Joined16(d0: bv8, d1: bv8, w: bv16)
    requires w == (d0 as bv16) | ((d1 as bv16) << 8)
    ensures w as int == d0 as int + 0x100 * (d1 as int)
  {
  }

  lemma Reversed16(d0: byte, d1: byte, w: int, r: int)
    requires w == d0 as int + 0x100 * d1 as int && r == d1 as int + 0x100 * d0 as int
    ensures 0 <= w < 0x1_0000 && r == Htons(w)
  {
    DigitsOfHalf(d0, d1);
  }

  lemma BothOrders16(d0: bv8, d1: bv8, w: bv16, r: bv16)
    requires w == (d0 as bv16) | ((d1 as bv16) << 8) && r == (d1 as bv16) | ((d0 as bv16) << 8)
    ensures r as int == Htons(w as int)
  {
    Joined16(d0, d1, w);
    Joined16(d1, d0, r);
    Reversed16(d0 as int, d1 as int, w as int, r as int);
  }

  lemma BytesOf16(x: bv16) returns (d0: bv8, d1: bv8)
    ensures x == (d0 as bv16) | ((d1 as bv16) << 8)
    ensures HtonsBits(x) == (d1 as bv16) | ((d0 as bv16) << 8)
  {
    d0, d1 := (x & 0xff) as bv8, (x >> 8) as bv8;
  }

  lemma HtonsOnBits(x: bv16)
    ensures HtonsBits(x) as int == Htons(x as int)
  {
    var d0, d1 := BytesOf16(x);
    BothOrders16(d0, d1, x, HtonsBits(x));
  }

  /** Converting twice is the identity, so `ntohl` may be `htonl`. */
  lemma HtonlTwice(x: u32)
    ensures Htonl(Htonl(x)) == x
  {
    DigitsOfWord(Digit(x, 3), Digit(x, 2), Digit(x, 1), Digit(x, 0));
    WordOfDigits(x);
  }

  /** A converted word, stored, is the word in network order. */
  lemma StoredIsWire(x: u32)
    ensures Store32(Htonl(x)) == Wire32(x)
  {
    DigitsOfWord(Digit(x, 3), Digit(x, 2), Digit(x, 1), Digit(x, 0));
  }

  lemma Stored16IsWire(x: u16)
    ensures Store16(Htons(x)) == Wire16(x)
  {
    DigitsOfHalf(x / 0x100, x % 0x100);
  }

  /** A word in network order, loaded and converted, is the word that was sent. */
  lemma LoadedIsBe(s: seq<byte>)
    requires |s| == 4
    ensures Htonl(Load32(s)) == Be32(s)
  {
    DigitsOfWord(s[0], s[1], s[2], s[3]);
  }

  lemma Loaded16IsBe(s: seq<byte>)
    requires |s| == 2
    ensures Htons(Load16(s)) == Be16(s)
  {
    DigitsOfHalf(s[0], s[1]);
  }
}

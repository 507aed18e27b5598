/** A number below 2^64 and the bits that stand for it: taking it to the bits and back gives the number. Halves of a word are
    put together, from two bits on. */
module WordBits {
  // Putting two halves together multiplies the high one.

  lemma {:induction false} TwoPairs(high: bv2, low: bv2)
    ensures (((high as bv4) << 2) | (low as bv4)) as int == 4 * (high as int) + low as int
  {
  }

  lemma {:induction false} TwoNibbles(high: bv4, low: bv4)
    ensures (((high as bv8) << 4) | (low as bv8)) as int == 0x10 * (high as int) + low as int
  {
  }

  lemma {:induction false} TwoBytes(high: bv8, low: bv8)
    ensures (((high as bv16) << 8) | (low as bv16)) as int == 0x100 * (high as int) + low as int
  {
  }

  lemma {:induction false} TwoHalves(high: bv16, low: bv16)
    ensures (((high as bv32) << 16) | (low as bv32)) as int == 0x1_0000 * (high as int) + low as int
  {
  }

  lemma {:induction false} TwoWords(high: bv32, low: bv32)
    ensures (((high as bv64) << 32) | (low as bv64)) as int == 0x1_0000_0000 * (high as int) + low as int
  {
  }

  // The bits of the number that some bits stand for are these bits.

  lemma {:induction false} Back4(w: bv4, n: nat)
    requires w as int == n
    ensures n as bv4 == w
  {
  }

  lemma {:induction false} Back8(w: bv8, n: nat)
    requires w as int == n
    ensures n as bv8 == w
  {
  }

  lemma {:induction false} Back16(w: bv16, n: nat)
    requires w as int == n
    ensures n as bv16 == w
  {
  }

  lemma {:induction false} Back32(w: bv32, n: nat)
    requires w as int == n
    ensures n as bv32 == w
  {
  }

  lemma {:induction false} Back64(w: bv64, n: nat)
    requires w as int == n
    ensures n as bv64 == w
  {
  }

  lemma {:induction false} Digits(n: nat, base: nat) returns (high: nat, low: nat)
    requires base > 0
    ensures high == n / base && low < base && n == base * high + low
  {
    high, low := n / base, n % base;
  }

  lemma {:induction false} PairIs(n: nat)
    requires n < 4
    ensures (n as bv2) as int == n
  {
    if n == 0 { } else if n == 1 { } else if n == 2 { } else { }
  }

  lemma {:induction false} NibbleFrom(high: bv2, low: bv2, n: nat)
    requires n == 4 * (high as int) + low as int
    ensures n < 4 * 4 && (n as bv4) as int == n
  {
    TwoPairs(high, low);
    Back4(((high as bv4) << 2) | (low as bv4), n);
  }

  lemma {:induction false} NibbleIs(n: nat)
    requires n < 0x10
    ensures (n as bv4) as int == n
  {
    var high, low := Digits(n, 4);
    PairIs(high);
    PairIs(low);
    NibbleFrom(high as bv2, low as bv2, n);
  }

  lemma {:induction false} ByteFrom(high: bv4, low: bv4, n: nat)
    requires n == 0x10 * (high as int) + low as int
    ensures n < 0x10 * 0x10 && (n as bv8) as int == n
  {
    TwoNibbles(high, low);
    Back8(((high as bv8) << 4) | (low as bv8), n);
  }

  lemma {:induction false} ByteIs(n: nat)
    requires n < 0x100
    ensures (n as bv8) as int == n
  {
    var high, low := Digits(n, 0x10);
    NibbleIs(high);
    NibbleIs(low);
    ByteFrom(high as bv4, low as bv4, n);
  }

  lemma {:induction false} HalfFrom(high: bv8, low: bv8, n: nat)
    requires n == 0x100 * (high as int) + low as int
    ensures n < 0x100 * 0x100 && (n as bv16) as int == n
  {
    TwoBytes(high, low);
    Back16(((high as bv16) << 8) | (low as bv16), n);
  }

  lemma {:induction false} HalfIs(n: nat)
    requires n < 0x1_0000
    ensures (n as bv16) as int == n
  {
    var high, low := Digits(n, 0x100);
    ByteIs(high);
    ByteIs(low);
    HalfFrom(high as bv8, low as bv8, n);
  }

  lemma {:induction false} WordFrom(high: bv16, low: bv16, n: nat)
    requires n == 0x1_0000 * (high as int) + low as int
    ensures n < 0x1_0000 * 0x1_0000 && (n as bv32) as int == n
  {
    TwoHalves(high, low);
    Back32(((high as bv32) << 16) | (low as bv32), n);
  }

  lemma {:induction false} WordIs(n: nat)
    requires n < 0x1_0000_0000
    ensures (n as bv32) as int == n
  {
    var high, low := Digits(n, 0x1_0000);
    HalfIs(high);
    HalfIs(low);
    WordFrom(high as bv16, low as bv16, n);
  }

  lemma {:induction false} LongFrom(high: bv32, low: bv32, n: nat)
    requires n == 0x1_0000_0000 * (high as int) + low as int
    ensures n < 0x1_0000_0000 * 0x1_0000_0000 && (n as bv64) as int == n
  {
    TwoWords(high, low);
    Back64(((high as bv64) << 32) | (low as bv64), n);
  }

  lemma {:induction false} LongIs(n: nat)
    requires n < 0x1_0000_0000_0000_0000
    ensures (n as bv64) as int == n
  {
    var high, low := Digits(n, 0x1_0000_0000);
    WordIs(high);
    WordIs(low);
    LongFrom(high as bv32, low as bv32, n);
  }
}

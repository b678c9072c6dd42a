/** The colour of a string in src/common.rs: a 31-polynomial hash in wrapping 32-bit arithmetic. */
module StringColor {
  import opened Common

  const MASK24 := 0x100_0000

  function WrappingAdd(a: nat, b: nat): nat { (a + b) % U32 }

  function WrappingSub(a: nat, b: nat): nat
    requires a < U32 && b < U32
  {
    (a - b + U32) % U32
  }

  function ShiftLeft5(a: nat): nat { a * 32 % U32 }

  /** `x & 0xFF7FFF` for a 24-bit x: bit 15 is cleared. */
  function ClearBit15(x: nat): nat { if x / 0x8000 % 2 == 1 then x - 0x8000 else x }

  /** 31 to the power n */
  function Power31(n: nat): nat { if n == 0 then 1 else 31 * Power31(n - 1) }

  /** The sum of bytes[i] * 31^(|bytes| - 1 - i) over the first n bytes. */
  function PolynomialSum(bytes: seq<Byte>, n: nat): nat
    requires n <= |bytes|
  {
    if n == 0 then 0 else PolynomialSum(bytes, n - 1) + bytes[n - 1] * Power31(|bytes| - n)
  }

  /** The same sum, one byte at a time. */
  function Horner(bytes: seq<Byte>): nat {
    if bytes == [] then 0 else Horner(bytes[..|bytes| - 1]) * 31 + bytes[|bytes| - 1]
  }

  /** Appending a byte multiplies every term by 31. */
  lemma {:induction false} SumOfPrefix(bytes: seq<Byte>, n: nat)
    requires bytes != [] && n < |bytes|
    ensures PolynomialSum(bytes, n) == 31 * PolynomialSum(bytes[..|bytes| - 1], n)
  {
    if n > 0 {
      SumOfPrefix(bytes, n - 1);
      var shorter := bytes[..|bytes| - 1];
      SumStep(PolynomialSum(bytes, n - 1), PolynomialSum(shorter, n - 1), bytes[n - 1],
              Power31(|bytes| - n), Power31(|shorter| - n));
    }
  }

  lemma SumStep(longer: nat, shorter: nat, b: nat, p: nat, q: nat)
    requires longer == 31 * shorter && p == 31 * q
    ensures longer + b * p == 31 * (shorter + b * q)
  {
    assert b * (31 * q) == 31 * (b * q);
  }

  lemma {:induction false} HornerIsSum(bytes: seq<Byte>)
    ensures Horner(bytes) == PolynomialSum(bytes, |bytes|)
  {
    if bytes != [] {
      HornerIsSum(bytes[..|bytes| - 1]);
      SumOfPrefix(bytes, |bytes| - 1);
    }
  }

  /** One step of the wrapping loop is one step of the polynomial, modulo 2^32. */
  lemma WrappingStep(h: nat, code: Byte)
    ensures WrappingAdd(code, WrappingSub(ShiftLeft5(h % U32), h % U32)) == (h * 31 + code) % U32
  {
    var r, q := h % U32, h / U32;
    var k := r * 32 / U32;
    assert ShiftLeft5(r) == r * 32 - k * U32;
    var d := ShiftLeft5(r) - r + U32;
    assert d == r * 31 + (1 - k) * U32;
    var m := d / U32;
    assert WrappingSub(ShiftLeft5(r), r) == d - m * U32;
    assert h * 31 + code == (q * 31 + k - 1 + m) * U32 + (code + (d - m * U32));
    ModPlus(code + (d - m * U32), q * 31 + k - 1 + m);
  }

  lemma ModPlus(x: int, k: int)
    ensures (k * U32 + x) % U32 == x % U32
  {
  }

  lemma ModOfMod(x: nat)
    ensures x % U32 % MASK24 == x % MASK24
  {
  }

  /** A number from its bit 15, what stands above it and what stands below it. */
  lemma Fields(x: nat, high: nat, bit: nat, low: nat)
    requires x == high * 0x1_0000 + bit * 0x8000 + low && bit < 2 && low < 0x8000
    ensures x / 0x1_0000 == high && x % 0x8000 == low
    ensures x / 0x8000 % 2 == bit
  {
    assert x / 0x8000 == high * 2 + bit;
  }

  lemma FieldsOf(x: nat) returns (high: nat, bit: nat, low: nat)
    ensures x == high * 0x1_0000 + bit * 0x8000 + low && bit < 2 && low < 0x8000
  {
    var upper := x / 0x8000;
    high, bit, low := upper / 2, upper % 2, x % 0x8000;
    assert upper == high * 2 + bit;
  }

  /** Bit 15 is cleared, and the bits below and above it stay. */
  lemma Bits(x: nat)
    ensures var y := ClearBit15(x);
      y / 0x8000 % 2 == 0 && y % 0x8000 == x % 0x8000 && y / 0x1_0000 == x / 0x1_0000
  {
    var high, bit, low := FieldsOf(x);
    Fields(x, high, bit, low);
    Fields(ClearBit15(x), high, 0, low);
  }

  /** The alpha byte stands above the bits of the colour. */
  lemma Packed(alpha: Byte, rgb: nat)
    requires rgb < MASK24
    ensures var c := alpha * MASK24 + rgb;
      && c / 0x8000 % 2 == rgb / 0x8000 % 2
      && c % 0x8000 == rgb % 0x8000 && c / 0x1_0000 % 0x100 == rgb / 0x1_0000
  {
    var high, bit, low := FieldsOf(rgb);
    Fields(rgb, high, bit, low);
    Fields(alpha * MASK24 + rgb, alpha * 0x100 + high, bit, low);
    Low8(alpha, high);
  }

  lemma Low8(a: nat, b: nat)
    requires b < 0x100
    ensures (a * 0x100 + b) % 0x100 == b
  {
  }

  /** The colour is the polynomial sum modulo 2^24 with bit 15 cleared, under the alpha byte. */
  method Str2Color(bytes: seq<Byte>, alpha: Byte) returns (color: nat)
    ensures color == alpha * MASK24 + ClearBit15(PolynomialSum(bytes, |bytes|) % MASK24)
    ensures color < U32 && color / 0x100_0000 == alpha
    ensures var sum := PolynomialSum(bytes, |bytes|) % 0x100_0000;
            color / 0x8000 % 2 == 0 && color % 0x8000 == sum % 0x8000 && color / 0x1_0000 % 0x100 == sum / 0x1_0000
  {
    var hash: nat := 0;
    for i := 0 to |bytes|
      invariant hash == Horner(bytes[..i]) % U32
    {
      assert bytes[..i + 1][..i] == bytes[..i];
      WrappingStep(Horner(bytes[..i]), bytes[i]);
      var code := bytes[i];
      hash := WrappingAdd(code, WrappingSub(ShiftLeft5(hash), hash));
    }
    assert bytes[..|bytes|] == bytes;
    HornerIsSum(bytes);
    ModOfMod(Horner(bytes));
    hash := hash % MASK24;
    var rgb := ClearBit15(hash);
    Bits(hash);
    Packed(alpha, rgb);
    color := alpha * MASK24 + rgb;
  }
}

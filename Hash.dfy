/** The feature hash of a world column (`Chunk::genRandomInt`), computed the
    way the C++ code computes it: on 32-bit two's-complement `int`s whose
    multiplications wrap around, whose `>>` is an arithmetic shift and whose
    `%` truncates toward zero. */
module Hash {

  const Modulus32: int := 0x1_0000_0000
  const MaxInt32: int := 0x7FFF_FFFF
  const SignBit: bv32 := 0x8000_0000

  /** The two's-complement bit pattern of x, reduced to 32 bits. */
  function Bits(x: int): bv32 {
    (x % Modulus32) as bv32
  }

  /** Reads a 32-bit pattern as a signed `int`. */
  function Signed(b: bv32): (r: int)
    ensures -Modulus32 / 2 <= r <= MaxInt32
    ensures r < 0 <==> b & SignBit != 0
  {
    if b < SignBit then b as int else b as int - Modulus32
  }

  /** `Signed` picks the one `int` in [-2^31, 2^31 - 1] with the given bits:
      writing it back gives the pattern it was read from. */
  lemma SignedBits(b: bv32)
    ensures Bits(Signed(b)) == b
  {
    if b < SignBit {
      SignedOfLow(b);
    } else {
      SignedOfHigh(b);
    }
  }

  lemma SignedOfLow(b: bv32)
    requires b < SignBit
    ensures Bits(b as int) == b
  {
    RoundTrip(b);
  }

  lemma SignedOfHigh(b: bv32)
    requires b >= SignBit
    ensures Bits(b as int - Modulus32) == b
  {
    WrapBelow(b as int);
    RoundTrip(b);
  }

  /** Reduction modulo 2^32 of a value already in [0, 2^32) and of one
      2^32 below it. */
  lemma ModOfSmall(v: int)
    requires 0 <= v < Modulus32
    ensures v % Modulus32 == v
  {
  }

  lemma WrapBelow(v: int)
    requires 0 <= v < Modulus32
    ensures (v - Modulus32) % Modulus32 == v
  {
  }

  lemma RoundTrip(b: bv32)
    ensures (b as int % Modulus32) as bv32 == b
  {
    ModOfSmall(b as int);
  }

  /** `b >> n` on a signed `int`: the vacated high bits are copies of the sign bit. */
  function Asr(b: bv32, n: bv32): (r: bv32)
    requires n < 32
    ensures r & SignBit == b & SignBit
    ensures b & SignBit == 0 ==> r == b >> n
    ensures b & SignBit != 0 ==> r == !((!b) >> n)
  {
    if b & SignBit == 0 then
      AsrOfNonNegative(b, n);
      b >> n
    else
      AsrOfNegative(b, n);
      (b >> n) | !(0xFFFF_FFFF >> n)
  }

  lemma AsrOfNonNegative(b: bv32, n: bv32)
    requires n < 32 && b & SignBit == 0
    ensures (b >> n) & SignBit == 0
  {
  }

  /** Filling the vacated bits with ones is shifting the complement. */
  lemma AsrOfNegative(b: bv32, n: bv32)
    requires n < 32 && b & SignBit != 0
    ensures (b >> n) | !(0xFFFF_FFFF >> n) == !((!b) >> n)
    ensures ((b >> n) | !(0xFFFF_FFFF >> n)) & SignBit == SignBit
  {
  }

  /** The last mixing step, `seed ^ (seed >> 16)`, always clears the sign bit,
      because the arithmetic shift copies the sign into bit 31 and xor cancels it. */
  lemma FinalStepClearsSign(s: bv32)
    ensures (s ^ Asr(s, 16)) & SignBit == 0
  {
  }

  /** C++'s `a % m`: the remainder takes the sign of the dividend. */
  function TruncRem(a: int, m: int): (r: int)
    requires m > 0
    ensures -m < r < m
    ensures a >= 0 ==> r >= 0
    ensures a <= 0 ==> r <= 0
    ensures Abs(r) == Abs(a) % m
  {
    if a >= 0 then a % m else -((-a) % m)
  }

  function Abs(a: int): (r: nat)
    ensures r == a || r == -a
  {
    if a < 0 then -a else a
  }

  /** The second assignment of `genRandomInt`: `seed = (seed ^ (seed >> 13)) * 1274126177`. */
  function FirstMix(seed: int): int {
    var b := Bits(seed);
    Signed((b ^ Asr(b, 13)) * 1274126177)
  }

  /** The third assignment, `seed = seed ^ (seed >> 16)`, which never leaves a
      negative seed. */
  function SecondMix(seed: int): (r: int)
    ensures 0 <= r <= MaxInt32
  {
    var b := Bits(seed);
    FinalStepClearsSign(b);
    Signed(b ^ Asr(b, 16))
  }

  /** `genRandomInt(x, z, maxInt)` statement by statement: for steps 0 to 2
      the `int` seed after each of its three assignments (prime
      multiplications and xor-shifts on the 32-bit pattern, where `*` and `+`
      on bv32 wrap around as the C++ `int` arithmetic does in practice), for
      step 3 the value it returns, `abs(seed % maxInt + 1)`. */
  function RandomAfter(x: int, z: int, maxInt: int, step: nat): int
    requires 1 <= maxInt <= MaxInt32 && step <= 3
    decreases step
  {
    if step == 0 then Signed(Bits(x) * 374761393 + Bits(z) * 668265263)
    else if step == 1 then FirstMix(RandomAfter(x, z, maxInt, 0))
    else if step == 2 then SecondMix(RandomAfter(x, z, maxInt, 1))
    else Abs(TruncRem(RandomAfter(x, z, maxInt, 2), maxInt) + 1)
  }

  /** `genRandomInt(x, z, maxInt)`: a number in [1, maxInt] that depends on
      nothing but its arguments. */
  function GenRandomInt(x: int, z: int, maxInt: int): (r: int)
    requires 1 <= maxInt <= MaxInt32
    ensures 1 <= r <= maxInt
  {
    RandomAfter(x, z, maxInt, 3)
  }

  lemma BitsOfNatural(x: int)
    requires 0 <= x < Modulus32
    ensures Bits(x) == x as bv32
  {
  }

  lemma BitsOfMinusThree()
    ensures Bits(-3) == 0xFFFF_FFFD
  {
    assert -3 % Modulus32 == 0xFFFF_FFFD;
  }

  /** The scenario of a repeated call: the hash of column (5, -3) with range
      1000 is 425, whatever the call. */
  lemma GenRandomIntSample()
    ensures GenRandomInt(5, -3, 1000) == 425
  {
    BitsOfNatural(5);
    BitsOfMinusThree();
    assert RandomAfter(5, -3, 1000, 0) == -130988824;
    assert -130988824 % Modulus32 == 0xF831_44E8;
    assert Bits(-130988824) == 0xF831_44E8;
    assert FirstMix(-130988824) == -2124781534;
    assert RandomAfter(5, -3, 1000, 1) == -2124781534;
    assert -2124781534 % Modulus32 == 0x815A_6822;
    assert Bits(-2124781534) == 0x815A_6822;
    assert SecondMix(-2124781534) == 2124802424;
    assert RandomAfter(5, -3, 1000, 2) == 2124802424;
  }

  /** The largest value of the range is reached: column (0, 7) draws 3 of 3. */
  lemma GenRandomIntReachesMax()
    ensures GenRandomInt(0, 7, 3) == 3
  {
    BitsOfNatural(0);
    BitsOfNatural(7);
    assert RandomAfter(0, 7, 3, 0) == 382889545;
    assert Bits(382889545) == 0x16D2_6E49;
    assert FirstMix(382889545) == -1647472486;
    assert RandomAfter(0, 7, 3, 1) == -1647472486;
    assert -1647472486 % Modulus32 == 0x9DCD_909A;
    assert Bits(-1647472486) == 0x9DCD_909A;
    assert SecondMix(-1647472486) == 1647447383;
    assert RandomAfter(0, 7, 3, 2) == 1647447383;
  }
}

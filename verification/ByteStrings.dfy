/** Byte strings, and the big-endian 32-bit lengths that both storage formats write. */
module ByteStrings {
  type byte = x: nat | x < 256

  type Bytes = seq<byte>

  const UINT32_LIMIT: nat := 0x1_0000_0000

  /** The conversion uint32(n), which wraps around. */
  function Uint32(n: nat): (u: nat)
    ensures u < UINT32_LIMIT
    ensures n < UINT32_LIMIT ==> u == n
  {
    n % UINT32_LIMIT
  }

  /** The last `width` base-256 digits of `n`, most significant first. */
  function Digits(n: nat, width: nat): (b: Bytes)
    ensures |b| == width
  {
    if width == 0 then [] else Digits(n / 256, width - 1) + [n % 256]
  }

  function Value(b: Bytes): nat {
    if b == [] then 0 else 256 * Value(b[..|b| - 1]) + b[|b| - 1]
  }

  function Power256(width: nat): nat {
    if width == 0 then 1 else 256 * Power256(width - 1)
  }

  function PutUint32(n: nat): (b: Bytes)
    requires n < UINT32_LIMIT
    ensures |b| == 4
  {
    Digits(n, 4)
  }

  function GetUint32(b: Bytes): (n: nat)
    requires |b| == 4
    ensures n < UINT32_LIMIT
  {
    DigitsOfValue(b);
    Power256Of4();
    Value(b)
  }

  lemma Power256Of4()
    ensures Power256(4) == UINT32_LIMIT
  {
    assert Power256(2) == 256 * Power256(1) == 256 * 256;
  }

  /** The number survives being written. */
  lemma {:induction false} ValueOfDigits(n: nat, width: nat)
    requires n < Power256(width)
    ensures Value(Digits(n, width)) == n
  {
    if width > 0 {
      ValueOfDigits(n / 256, width - 1);
      assert Digits(n, width)[..width - 1] == Digits(n / 256, width - 1);
    }
  }

  /** And so do the digits being read. */
  lemma {:induction false} DigitsOfValue(b: Bytes)
    ensures Value(b) < Power256(|b|) && Digits(Value(b), |b|) == b
  {
    if b != [] {
      var high, low := b[..|b| - 1], b[|b| - 1];
      DigitsOfValue(high);
      assert Value(b) / 256 == Value(high) && Value(b) % 256 == low;
      assert b == high + [low];
    }
  }

  /** Lengths survive being written and read, and every four bytes are the writing of one length. */
  lemma Uint32RoundTrip(n: nat, b: Bytes)
    requires n < UINT32_LIMIT && |b| == 4
    ensures GetUint32(PutUint32(n)) == n
    ensures PutUint32(GetUint32(b)) == b
  {
    Power256Of4();
    ValueOfDigits(n, 4);
    DigitsOfValue(b);
  }

  /** The most significant byte comes first. */
  lemma BigEndian(n: nat)
    requires n < UINT32_LIMIT
    ensures PutUint32(n) == [n / 0x100_0000, n / 0x1_0000 % 0x100, n / 0x100 % 0x100, n % 0x100]
  {
    var a, b, c := n / 0x100_0000, n / 0x1_0000, n / 0x100;
    assert b / 0x100 == a && c / 0x100 == b && n / 0x100 == c;
    assert Digits(a, 1) == [] + [a % 0x100] == [a];
    assert Digits(b, 2) == [a] + [b % 0x100];
    assert Digits(c, 3) == [a] + [b % 0x100] + [c % 0x100];
    assert Digits(n, 4) == [a] + [b % 0x100] + [c % 0x100] + [n % 0x100];
  }
}

/** Numbers as bytes, in network order and in the order USB and the NI adapter use. */
module Bytes {
  import opened Common

  function Radix(width: nat): nat { if width == 0 then 1 else 0x100 * Radix(width - 1) }

  function ToBytes(n: nat, width: nat): (b: seq<byte>)
    ensures |b| == width
  {
    if width == 0 then [] else ToBytes(n / 0x100, width - 1) + [n % 0x100]
  }

  function FromBytes(b: seq<byte>): (n: nat) {
    if b == [] then 0 else 0x100 * FromBytes(b[..|b| - 1]) + b[|b| - 1]
  }

  lemma {:induction false} FromBytesFits(b: seq<byte>)
    ensures FromBytes(b) < Radix(|b|)
  {
    if b != [] {
      FromBytesFits(b[..|b| - 1]);
    }
  }

  lemma {:induction false} NumberRoundTrip(n: nat, width: nat)
    requires n < Radix(width)
    ensures FromBytes(ToBytes(n, width)) == n
  {
    if width > 0 {
      NumberRoundTrip(n / 0x100, width - 1);
      var b := ToBytes(n, width);
      assert b[..|b| - 1] == ToBytes(n / 0x100, width - 1);
    }
  }

  lemma {:induction false} BytesRoundTrip(b: seq<byte>)
    ensures ToBytes(FromBytes(b), |b|) == b
  {
    if b != [] {
      BytesRoundTrip(b[..|b| - 1]);
      var n := FromBytes(b);
      assert n / 0x100 == FromBytes(b[..|b| - 1]) && n % 0x100 == b[|b| - 1];
    }
  }

  /** The same, least significant byte first. */
  function ToBytesLe(n: nat, width: nat): (b: seq<byte>)
    ensures |b| == width
  {
    if width == 0 then [] else [n % 0x100] + ToBytesLe(n / 0x100, width - 1)
  }

  function FromBytesLe(b: seq<byte>): (n: nat) {
    if b == [] then 0 else b[0] + 0x100 * FromBytesLe(b[1..])
  }

  lemma {:induction false} NumberRoundTripLe(n: nat, width: nat)
    requires n < Radix(width)
    ensures FromBytesLe(ToBytesLe(n, width)) == n
  {
    if width > 0 {
      NumberRoundTripLe(n / 0x100, width - 1);
      var b := ToBytesLe(n, width);
      assert b[1..] == ToBytesLe(n / 0x100, width - 1);
    }
  }

  lemma Radixes()
    ensures Radix(2) == 0x1_0000 && Radix(4) == 0x1_0000_0000 && Radix(8) == 0x1_0000_0000_0000_0000
  {
    assert Radix(1) == 0x100 * Radix(0);
    assert Radix(2) == 0x100 * Radix(1);
    assert Radix(3) == 0x100 * Radix(2);
    assert Radix(4) == 0x100 * Radix(3);
    assert Radix(5) == 0x100 * Radix(4);
    assert Radix(6) == 0x100 * Radix(5);
    assert Radix(7) == 0x100 * Radix(6);
    assert Radix(8) == 0x100 * Radix(7);
  }
}

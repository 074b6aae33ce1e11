/** The committee selection seed: epoch nonce plus epoch number, on 256-bit words. */
module Seed {
  import opened Prelude

  type Byte = b: nat | b < 256

  function Pow256(n: nat): (p: nat)
    ensures 0 < p
  {
    if n == 0 then 1 else 256 * Pow256(n - 1)
  }

  /** `resize_with(32, 0)`: cut or padded with zeros at the end. */
  function AsArray(nonce: seq<Byte>): (r: seq<Byte>)
    ensures |r| == 32 && forall i :: 0 <= i < 32 ==> r[i] == if i < |nonce| then nonce[i] else 0
  {
    if |nonce| >= 32 then nonce[..32] else nonce + seq(32 - |nonce|, _ => 0)
  }

  function FromBigEndian(bytes: seq<Byte>): nat {
    if bytes == [] then 0 else 256 * FromBigEndian(bytes[..|bytes| - 1]) + Last(bytes)
  }

  function ToBigEndian(x: nat, n: nat): (r: seq<Byte>)
    ensures |r| == n
  {
    if n == 0 then [] else ToBigEndian(x / 256, n - 1) + [x % 256]
  }

  function SeedOf(nonce: seq<Byte>, epoch: nat): seq<Byte> {
    ToBigEndian((FromBigEndian(AsArray(nonce)) + epoch) % Pow256(32), 32)
  }

  lemma DigitSplit(x: nat, p: nat)
    requires x < 256 * p
    ensures x / 256 < p && x == 256 * (x / 256) + x % 256
  {
  }

  lemma {:induction false} DecodeEncode(x: nat, n: nat)
    requires x < Pow256(n)
    ensures FromBigEndian(ToBigEndian(x, n)) == x
  {
    if n != 0 {
      DigitSplit(x, Pow256(n - 1));
      DecodeEncode(x / 256, n - 1);
      assert ToBigEndian(x, n)[..n - 1] == ToBigEndian(x / 256, n - 1);
    }
  }

  lemma {:induction false} EncodeDecode(bytes: seq<Byte>)
    ensures FromBigEndian(bytes) < Pow256(|bytes|)
    ensures ToBigEndian(FromBigEndian(bytes), |bytes|) == bytes
  {
    if bytes != [] {
      var init := bytes[..|bytes| - 1];
      EncodeDecode(init);
      assert FromBigEndian(bytes) / 256 == FromBigEndian(init);
      assert bytes == init + [Last(bytes)];
    }
  }

  lemma {:induction false} PowGrows(m: nat, n: nat)
    requires m <= n
    ensures Pow256(m) <= Pow256(n)
  {
    if m < n {
      PowGrows(m, n - 1);
    }
  }

  lemma ModBelowTwice(y: nat, m: nat)
    requires 0 < m && y < 2 * m
    ensures y % m == if y < m then y else y - m
  {
    if m <= y {
      assert y == 1 * m + (y - m);
    }
  }

  lemma ModDistinct(x: nat, a: nat, b: nat, m: nat)
    requires a < b < m && x < m
    ensures (x + a) % m != (x + b) % m
  {
    ModBelowTwice(x + a, m);
    ModBelowTwice(x + b, m);
  }

  lemma EightBytes()
    ensures Pow256(8) == U64_SPAN
  {
    assert Pow256(4) == U32_SPAN;
  }

  lemma WordsDiffer(x: nat, a: nat, b: nat, n: nat)
    requires x < Pow256(n) && a < Pow256(n) && b < Pow256(n) && a != b
    ensures ToBigEndian((x + a) % Pow256(n), n) != ToBigEndian((x + b) % Pow256(n), n)
  {
    var m := Pow256(n);
    if a < b {
      ModDistinct(x, a, b, m);
    } else {
      ModDistinct(x, b, a, m);
    }
    DecodeEncode((x + a) % m, n);
    DecodeEncode((x + b) % m, n);
  }

  /** Sum of the bytes times their powers of 256, the first byte counting most. */
  function PlaceValue(bytes: seq<Byte>): nat {
    if bytes == [] then 0 else bytes[0] * Pow256(|bytes| - 1) + PlaceValue(bytes[1..])
  }

  lemma {:induction false} PlaceValueSnoc(bytes: seq<Byte>, b: Byte)
    ensures PlaceValue(bytes + [b]) == 256 * PlaceValue(bytes) + b
  {
    if bytes == [] {
      assert bytes + [b] == [b];
      assert [b][1..] == [];
    } else {
      PlaceValueSnoc(bytes[1..], b);
      assert (bytes + [b])[1..] == bytes[1..] + [b];
      ShiftDigit(bytes[0], Pow256(|bytes| - 1));
    }
  }

  lemma ShiftDigit(d: nat, p: nat)
    ensures d * (256 * p) == 256 * (d * p)
  {
  }

  lemma {:induction false} DecodesPlaceValue(bytes: seq<Byte>)
    ensures FromBigEndian(bytes) == PlaceValue(bytes)
  {
    if bytes != [] {
      var init := bytes[..|bytes| - 1];
      DecodesPlaceValue(init);
      assert bytes == init + [Last(bytes)];
      PlaceValueSnoc(init, Last(bytes));
    }
  }

  const U256_SPAN := 0x1_0000000000000000_0000000000000000_0000000000000000_0000000000000000

  lemma ThirtyTwoBytes()
    ensures Pow256(32) == U256_SPAN
  {
    EightBytes();
    assert Pow256(16) == 0x1_0000000000000000_0000000000000000;
    assert Pow256(24) == 0x1_0000000000000000_0000000000000000_0000000000000000;
  }

  /** The 32 bytes of the seed are, as a big-endian number, the nonce, cut or padded to 32 bytes, plus the
      epoch, modulo 2^256. */
  lemma SeedValue(nonce: seq<Byte>, epoch: nat)
    ensures |SeedOf(nonce, epoch)| == 32
    ensures PlaceValue(SeedOf(nonce, epoch)) == (PlaceValue(AsArray(nonce)) + epoch) % U256_SPAN
  {
    ThirtyTwoBytes();
    DecodesPlaceValue(AsArray(nonce));
    DecodesPlaceValue(SeedOf(nonce, epoch));
    DecodeEncode((FromBigEndian(AsArray(nonce)) + epoch) % Pow256(32), 32);
  }

  /** For every nonce, of any length, different 64-bit epochs give different seeds, also when the
      addition wraps around 2^256. */
  lemma SeedsDiffer(nonce: seq<Byte>, a: nat, b: nat)
    requires a < U64_SPAN && b < U64_SPAN && a != b
    ensures SeedOf(nonce, a) != SeedOf(nonce, b)
  {
    EncodeDecode(AsArray(nonce));
    EightBytes();
    PowGrows(8, 32);
    WordsDiffer(FromBigEndian(AsArray(nonce)), a, b, 32);
  }
}

/** Bytes, fixed-width unsigned integers and big-endian byte strings. */
module Bytes {

  newtype byte = b: int | 0 <= b < 256

  const U32_VALUES := 0x1_0000_0000
  const U64_VALUES := 0x1_0000_0000_0000_0000

  type u32 = x: int | 0 <= x < U32_VALUES

  datatype Option<+T> = None | Some(value: T)

  function Min(a: int, b: int): int {
    if a < b then a else b
  }

  /** The number of values a big-endian field of `width` bytes can hold. */
  function Pow256(width: nat): nat {
    if width == 0 then 1 else 256 * Pow256(width - 1)
  }

  /** `from_be_bytes`: the number a big-endian byte string denotes. */
  function BeValue(s: seq<byte>): nat {
    if s == [] then 0 else 256 * BeValue(s[..|s| - 1]) + s[|s| - 1] as int
  }

  /** `to_be_bytes`: the low `width` bytes of `n`, most significant first. */
  function BeBytes(n: nat, width: nat): (s: seq<byte>)
    ensures |s| == width
  {
    if width == 0 then [] else BeBytes(n / 256, width - 1) + [(n % 256) as byte]
  }

  lemma {:induction false} BeValueBound(s: seq<byte>)
    ensures BeValue(s) < Pow256(|s|)
  {
    if s != [] {
      BeValueBound(s[..|s| - 1]);
    }
  }

  lemma {:induction false} BeValueOfBytes(n: nat, width: nat)
    requires n < Pow256(width)
    ensures BeValue(BeBytes(n, width)) == n
  {
    if width > 0 {
      BeValueOfBytes(n / 256, width - 1);
      var s := BeBytes(n, width);
      assert s[..width - 1] == BeBytes(n / 256, width - 1);
    }
  }

  lemma {:induction false} BeBytesOfValue(s: seq<byte>)
    ensures BeBytes(BeValue(s), |s|) == s
  {
    if s != [] {
      BeBytesOfValue(s[..|s| - 1]);
      assert s == s[..|s| - 1] + [s[|s| - 1]];
    }
  }

  lemma {:induction false} FieldSizes()
    ensures Pow256(4) == U32_VALUES
    ensures Pow256(8) == U64_VALUES
  {
    assert Pow256(4) == 256 * (256 * (256 * (256 * Pow256(0))));
    assert Pow256(8) == 256 * (256 * (256 * (256 * Pow256(4))));
  }

  // ── 32-bit words as numbers and as bit vectors ──────────────────────────

  lemma {:induction false} LowWordIsBitwise(id: bv32)
    requires id < 0x8000_0000
    ensures id | 0x8000_0000 == id + 0x8000_0000 && id & 0x7fff_ffff == id
  {
  }

  lemma {:induction false} HighWordIsBitwise(id: bv32)
    requires id >= 0x8000_0000
    ensures id | 0x8000_0000 == id && id & 0x7fff_ffff == id - 0x8000_0000
  {
  }

  lemma {:induction false} LowWordAsNumber(id: bv32)
    requires id < 0x8000_0000
    ensures (id + 0x8000_0000) as int == id as int + 0x8000_0000 < U32_VALUES
  {
  }

  lemma {:induction false} HighWordAsNumber(id: bv32)
    requires id >= 0x8000_0000
    ensures 0 <= (id - 0x8000_0000) as int == id as int - 0x8000_0000
  {
  }
}

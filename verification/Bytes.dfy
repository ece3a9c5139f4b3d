/** Bytes and the little-endian integers of the 9P2000 and mux wire formats. */
module Bytes {
  type byte = x: int | 0 <= x < 256

  const U16_LIMIT := 0x1_0000
  const U32_LIMIT := 0x1_0000_0000
  const U64_LIMIT := 0x1_0000_0000_0000_0000

  function Limit(width: nat): (n: nat)
    ensures n > 0
  {
    if width == 0 then 1 else 256 * Limit(width - 1)
  }

  /** `to_le_bytes` of an integer cast to `width` bytes: higher digits are cut off. */
  function ToLE(width: nat, v: nat): (s: seq<byte>)
    ensures |s| == width
  {
    if width == 0 then [] else [v % 256] + ToLE(width - 1, v / 256)
  }

  /** `from_le_bytes`. */
  function FromLE(s: seq<byte>): nat {
    if s == [] then 0 else s[0] + 256 * FromLE(s[1..])
  }

  lemma {:induction false} FromToLE(width: nat, v: nat)
    requires v < Limit(width)
    ensures FromLE(ToLE(width, v)) == v
  {
    if width > 0 {
      FromToLE(width - 1, v / 256);
      assert ToLE(width, v)[1..] == ToLE(width - 1, v / 256);
    }
  }

  lemma {:induction false} FromLEBound(s: seq<byte>)
    ensures FromLE(s) < Limit(|s|)
  {
    if s != [] {
      FromLEBound(s[1..]);
    }
  }

  lemma Limits()
    ensures Limit(2) == U16_LIMIT && Limit(4) == U32_LIMIT && Limit(8) == U64_LIMIT
  {
    assert Limit(1) == 256;
    assert Limit(2) == 256 * Limit(1);
    assert Limit(3) == 256 * Limit(2);
    assert Limit(4) == 256 * Limit(3);
    assert Limit(5) == 256 * Limit(4);
    assert Limit(6) == 256 * Limit(5);
    assert Limit(7) == 256 * Limit(6);
    assert Limit(8) == 256 * Limit(7);
  }

  function U16(v: nat): (s: seq<byte>) ensures |s| == 2 { ToLE(2, v) }
  function U32(v: nat): (s: seq<byte>) ensures |s| == 4 { ToLE(4, v) }
  function U64(v: nat): (s: seq<byte>) ensures |s| == 8 { ToLE(8, v) }

  /** The integer at `s[at..at + width]`. */
  function Field(s: seq<byte>, at: nat, width: nat): nat
    requires at + width <= |s|
  {
    FromLE(s[at..at + width])
  }

  /** Reading back an integer field that is followed by anything. */
  lemma FieldOf(before: seq<byte>, width: nat, v: nat, after: seq<byte>)
    requires v < Limit(width)
    ensures Field(before + ToLE(width, v) + after, |before|, width) == v
  {
    var s := before + ToLE(width, v) + after;
    assert s[|before|..|before| + width] == ToLE(width, v);
    FromToLE(width, v);
  }

  /** Pieces laid end to end, as a growing buffer collects them. */
  function Flatten(pieces: seq<seq<byte>>): seq<byte> {
    if pieces == [] then [] else Flatten(pieces[..|pieces| - 1]) + pieces[|pieces| - 1]
  }

  lemma FlattenSnoc(pieces: seq<seq<byte>>, p: seq<byte>)
    ensures Flatten(pieces + [p]) == Flatten(pieces) + p
  {
    assert (pieces + [p])[..|pieces|] == pieces;
  }

  lemma {:induction false} FlattenFront(pieces: seq<seq<byte>>)
    requires pieces != []
    ensures Flatten(pieces) == pieces[0] + Flatten(pieces[1..])
  {
    var n := |pieces| - 1;
    if n > 0 {
      FlattenFront(pieces[..n]);
      assert pieces[..n][1..] == pieces[1..][..n - 1];
    }
  }
}

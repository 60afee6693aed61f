/** Fixed-width big-endian integers, as `encoding/binary` writes and reads them. */
module BigEndian {
  import opened Bytes

  function Pow256(width: nat): nat {
    if width == 0 then 1 else 256 * Pow256(width - 1)
  }

  /** The low `width` bytes of `n`, most significant first. */
  function Write(n: nat, width: nat): (r: Bytes)
    ensures |r| == width
  {
    if width == 0 then [] else Write(n / 256, width - 1) + [n % 256]
  }

  /** The value the shift-and-or loop accumulates. */
  function Read(s: Bytes): nat {
    if s == [] then 0 else Read(s[..|s| - 1]) * 256 + s[|s| - 1]
  }

  lemma {:induction false} ReadBound(s: Bytes)
    ensures Read(s) < Pow256(|s|)
  {
    if s != [] {
      ReadBound(s[..|s| - 1]);
    }
  }

  lemma {:induction false} ReadWrite(n: nat, width: nat)
    requires n < Pow256(width)
    ensures Read(Write(n, width)) == n
  {
    if width > 0 {
      ReadWrite(n / 256, width - 1);
      assert Write(n, width)[..width - 1] == Write(n / 256, width - 1);
    }
  }

  lemma {:induction false} WriteRead(s: Bytes)
    ensures Write(Read(s), |s|) == s
  {
    if s != [] {
      WriteRead(s[..|s| - 1]);
      assert Read(s) / 256 == Read(s[..|s| - 1]);
      assert Read(s) % 256 == s[|s| - 1];
      assert s == s[..|s| - 1] + [s[|s| - 1]];
    }
  }

  lemma Widths()
    ensures Pow256(1) == 256 && Pow256(2) == TWO_TO_16 && Pow256(4) == TWO_TO_32 && Pow256(8) == TWO_TO_64
  {
    assert Pow256(3) == 256 * Pow256(2);
    assert Pow256(4) == 256 * Pow256(3);
    assert Pow256(5) == 256 * Pow256(4);
    assert Pow256(6) == 256 * Pow256(5);
    assert Pow256(7) == 256 * Pow256(6);
    assert Pow256(8) == 256 * Pow256(7);
  }
}

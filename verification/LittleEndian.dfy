/** Little-endian integers as byte sequences. */
module LittleEndian {
  import opened Basics

  function FromLE(s: seq<byte>): nat {
    if s == [] then 0 else s[0] + 256 * FromLE(s[1..])
  }

  function ToLE(v: nat, n: nat): (s: seq<byte>)
    ensures |s| == n
  {
    if n == 0 then [] else [v % 256] + ToLE(v / 256, n - 1)
  }

  function Pow256(n: nat): (p: nat)
    ensures p >= 1
  {
    if n == 0 then 1 else 256 * Pow256(n - 1)
  }

  lemma {:induction false} FromLEBound(s: seq<byte>)
    ensures FromLE(s) < Pow256(|s|)
  {
    if s != [] {
      FromLEBound(s[1..]);
    }
  }

  /** Encoding n bytes keeps exactly the value modulo 256^n. */
  lemma {:induction false} FromToLE(v: nat, n: nat)
    requires v < Pow256(n)
    ensures FromLE(ToLE(v, n)) == v
  {
    if n > 0 {
      FromToLE(v / 256, n - 1);
      assert ToLE(v, n)[1..] == ToLE(v / 256, n - 1);
    }
  }

  lemma {:induction false} ToFromLE(s: seq<byte>)
    ensures ToLE(FromLE(s), |s|) == s
  {
    if s != [] {
      ToFromLE(s[1..]);
      assert FromLE(s) % 256 == s[0] && FromLE(s) / 256 == FromLE(s[1..]);
    }
  }

  /** Appending a byte adds it at its weight. */
  lemma {:induction false} FromLEAppend(s: seq<byte>, b: byte)
    ensures FromLE(s + [b]) == FromLE(s) + b * Pow256(|s|)
  {
    if s == [] {
      assert FromLE([b]) == b + 256 * FromLE([]);
    } else {
      assert (s + [b])[1..] == s[1..] + [b];
      FromLEAppend(s[1..], b);
      calc {
        256 * (b * Pow256(|s| - 1));
        b * (256 * Pow256(|s| - 1));
        b * Pow256(|s|);
      }
    }
  }

  /** Trailing zero bytes do not count. */
  lemma {:induction false} FromLEZeros(s: seq<byte>, n: nat)
    ensures FromLE(s + seq(n, _ => 0)) == FromLE(s)
  {
    var z := seq(n, _ => 0);
    if s != [] {
      assert (s + z)[1..] == s[1..] + z;
      FromLEZeros(s[1..], n);
    } else if n > 0 {
      assert s + z == z && z[1..] == seq(n - 1, _ => 0);
      FromLEZeros([], n - 1);
      assert [] + seq(n - 1, _ => 0) == z[1..];
    } else {
      assert s + z == s;
    }
  }

  /** The byte order, spelled out. */
  lemma LowestByteFirst(a: byte, b: byte, c: byte, d: byte)
    ensures FromLE([a, b]) == a + 0x100 * b
    ensures FromLE([a, b, c, d]) == a + 0x100 * b + 0x1_0000 * c + 0x100_0000 * d
  {
    assert FromLE([d]) == d + 256 * FromLE([]);
    assert FromLE([c, d]) == c + 256 * FromLE([d]);
    assert FromLE([b, c, d]) == b + 256 * FromLE([c, d]);
    assert FromLE([b]) == b + 256 * FromLE([]);
  }
}

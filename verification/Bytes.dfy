/** Bytes, little-endian integers and 16-bit word lists: the layer every stored format shares. */
module Bytes {
  type byte = x: int | 0 <= x < 0x100
  type u16 = x: int | 0 <= x < 0x1_0000
  type u32 = x: int | 0 <= x < 0x1_0000_0000
  type u64 = x: int | 0 <= x < 0x1_0000_0000_0000_0000

  datatype Option<+T> = None | Some(value: T)

  function Pow256(n: nat): (r: nat)
    ensures r > 0
  {
    if n == 0 then 1 else 256 * Pow256(n - 1)
  }

  /** The n low-order bytes of v, least significant first; higher bytes are dropped. */
  function LE(v: nat, n: nat): (r: seq<byte>)
    ensures |r| == n
  {
    if n == 0 then [] else [v % 256] + LE(v / 256, n - 1)
  }

  function FromLE(s: seq<byte>): (r: nat)
    ensures r < Pow256(|s|)
  {
    if s == [] then 0 else s[0] + 256 * FromLE(s[1..])
  }

  /** Byte k of the encoding is v shifted right by 8k, truncated. */
  lemma {:induction false} LEAt(v: nat, n: nat, k: nat)
    requires k < n
    ensures LE(v, n)[k] == v / Pow256(k) % 256
  {
    if k > 0 {
      LEAt(v / 256, n - 1, k - 1);
      DivModSplit(v, Pow256(k - 1));
    }
  }

  lemma {:induction false} Apart(d: nat, q: nat, q': nat)
    requires q < q'
    ensures d * q + d <= d * q'
    decreases q' - q
  {
    assert d * q' == d * (q' - 1) + d;
    if q + 1 < q' {
      Apart(d, q, q' - 1);
    }
  }

  /** Quotient and remainder are determined. */
  lemma DivModUnique(v: nat, d: nat, q: nat, r: nat)
    requires d > 0 && v == d * q + r && r < d
    ensures v / d == q && v % d == r
  {
    assert v == d * (v / d) + v % d;
    if v / d < q { Apart(d, v / d, q); }
    if q < v / d { Apart(d, q, v / d); }
  }

  /** Splitting off the low byte before dividing by d. */
  lemma DivModSplit(v: nat, d: nat)
    requires d > 0
    ensures v / (256 * d) == v / 256 / d
    ensures v % (256 * d) == 256 * (v / 256 % d) + v % 256
  {
    var q, r := v / 256 / d, v / 256 % d;
    assert v / 256 == d * q + r;
    assert 256 * (d * q) == (256 * d) * q;
    DivModUnique(v, 256 * d, q, 256 * r + v % 256);
  }

  lemma {:induction false} FromLEOfLE(v: nat, n: nat)
    ensures FromLE(LE(v, n)) == v % Pow256(n)
  {
    if n == 0 {
    } else {
      FromLEOfLE(v / 256, n - 1);
      assert LE(v, n)[1..] == LE(v / 256, n - 1);
      DivModSplit(v, Pow256(n - 1));
    }
  }

  /** A value that fits survives the round trip. */
  lemma LERoundTrip(v: nat, n: nat)
    requires v < Pow256(n)
    ensures FromLE(LE(v, n)) == v
  {
    FromLEOfLE(v, n);
    DivModUnique(v, Pow256(n), 0, v);
  }

  lemma {:induction false} LEOfFromLE(s: seq<byte>)
    ensures LE(FromLE(s), |s|) == s
  {
    if s != [] {
      LEOfFromLE(s[1..]);
      var v := FromLE(s);
      assert v % 256 == s[0] && v / 256 == FromLE(s[1..]);
    }
  }

  /** Field of n bytes at offset p. */
  function Get(b: seq<byte>, p: nat, n: nat): (r: nat)
    requires p + n <= |b|
    ensures r < Pow256(n)
  {
    FromLE(b[p..p + n])
  }

  lemma Pow256Values()
    ensures Pow256(1) == 0x100 && Pow256(2) == 0x1_0000 && Pow256(4) == 0x1_0000_0000
    ensures Pow256(8) == 0x1_0000_0000_0000_0000
  {
    assert Pow256(3) == 0x100_0000;
    assert Pow256(4) == 0x1_0000_0000;
    assert Pow256(5) == 0x100_0000_0000;
    assert Pow256(6) == 0x1_0000_0000_0000;
    assert Pow256(7) == 0x100_0000_0000_0000;
  }

  function Zeros(n: nat): (r: seq<byte>)
    ensures |r| == n && forall i :: 0 <= i < n ==> r[i] == 0
  {
    seq(n, _ => 0)
  }

  /** 16-bit words, each little endian. */
  function Words(vs: seq<u16>): (r: seq<byte>)
    ensures |r| == 2 * |vs|
  {
    if vs == [] then [] else LE(vs[0], 2) + Words(vs[1..])
  }

  function ReadWords(s: seq<byte>): (r: seq<u16>)
    requires |s| % 2 == 0
    ensures |r| == |s| / 2
  {
    if s == [] then [] else
      Pow256Values();
      [FromLE(s[..2])] + ReadWords(s[2..])
  }

  lemma {:induction false} ReadWordsOfWords(vs: seq<u16>)
    ensures ReadWords(Words(vs)) == vs
  {
    if vs != [] {
      var s := Words(vs);
      assert s[..2] == LE(vs[0], 2) && s[2..] == Words(vs[1..]);
      Pow256Values();
      LERoundTrip(vs[0], 2);
      ReadWordsOfWords(vs[1..]);
    }
  }

  lemma {:induction false} WordsOfReadWords(s: seq<byte>)
    requires |s| % 2 == 0
    ensures Words(ReadWords(s)) == s
  {
    if s != [] {
      var vs := ReadWords(s);
      Pow256Values();
      LEOfFromLE(s[..2]);
      WordsOfReadWords(s[2..]);
      assert vs[1..] == ReadWords(s[2..]);
      assert s == s[..2] + s[2..];
    }
  }

  lemma {:induction false} ReadWordsAt(s: seq<byte>, k: nat)
    requires |s| % 2 == 0 && 2 * k + 2 <= |s|
    ensures ReadWords(s)[k] == Get(s, 2 * k, 2)
  {
    if k == 0 {
      assert s[..2] == s[0..2];
    } else {
      var t := s[2..];
      ReadWordsAt(t, k - 1);
      assert t[2 * (k - 1)..2 * (k - 1) + 2] == s[2 * k..2 * k + 2];
      assert ReadWords(s)[k] == ReadWords(t)[k - 1];
    }
  }

  lemma SubSlice(b: seq<byte>, i: nat, j: nat, p: nat, q: nat)
    requires i <= j <= |b| && p <= q <= j - i
    ensures b[i..j][p..q] == b[i + p..i + q]
  {
    assert forall k :: 0 <= k < q - p ==> b[i..j][p..q][k] == b[i + p..i + q][k];
  }
}

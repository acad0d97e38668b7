// Bytes, little-endian integers and 512-byte blocks: the on-disk vocabulary that the
// block cache and mkfs share.
module Blocks {
  type Byte = x: int | 0 <= x < 256

  const BLOCK_SIZE := 512
  const LOG_MAX_SIZE := 63

  type Block = s: seq<Byte> | |s| == 512 witness seq(512, i => 0)

  type U64 = x: int | 0 <= x < 0x1_0000_0000_0000_0000

  function ZeroBlock(): Block {
    seq(512, i => 0)
  }

  function Pow256(n: nat): (r: nat)
    ensures r > 0
  {
    if n == 0 then 1 else 256 * Pow256(n - 1)
  }

  /** The n low bytes of w, least significant first: the layout of every integer on disk. */
  function ToBytes(w: nat, n: nat): (r: seq<Byte>)
    ensures |r| == n
  {
    if n == 0 then [] else [w % 256] + ToBytes(w / 256, n - 1)
  }

  function FromBytes(s: seq<Byte>): nat {
    if s == [] then 0 else s[0] + 256 * FromBytes(s[1..])
  }

  lemma {:induction false} FromToBytes(w: nat, n: nat)
    requires w < Pow256(n)
    ensures FromBytes(ToBytes(w, n)) == w
  {
    if n > 0 {
      FromToBytes(w / 256, n - 1);
      assert ToBytes(w, n)[1..] == ToBytes(w / 256, n - 1);
    }
  }

  lemma {:induction false} FromBytesBound(s: seq<Byte>)
    ensures FromBytes(s) < Pow256(|s|)
  {
    if s != [] {
      FromBytesBound(s[1..]);
    }
  }

  lemma {:induction false} ToFromBytes(s: seq<Byte>)
    ensures ToBytes(FromBytes(s), |s|) == s
  {
    if s != [] {
      ToFromBytes(s[1..]);
      var w := FromBytes(s);
      assert w % 256 == s[0] && w / 256 == FromBytes(s[1..]);
      assert s == [s[0]] + s[1..];
    }
  }

  /** Byte i of a little-endian integer is its i-th digit to the base 256, the lowest first. */
  lemma {:induction false} ByteIs(w: nat, n: nat, i: nat)
    requires i < n
    ensures ToBytes(w, n)[i] == w / Pow256(i) % 256
  {
    if i > 0 {
      ByteIs(w / 256, n - 1, i - 1);
      DivTwice(w, 256, Pow256(i - 1));
    }
  }

  /** Dividing in two steps. */
  lemma DivTwice(w: nat, b: nat, p: nat)
    requires b > 0 && p > 0
    ensures b * p > 0 && w / b / p == w / (b * p)
  {
    var q, r := w / b / p, w / b % p;
    Multiples(0, p, b);
    Multiples(r, p, b);
    assert r * b + w % b < p * b;
    assert w == (w / b) * b + w % b && w / b == q * p + r;
    assert (q * p + r) * b == q * (b * p) + r * b;
    QuotientIs(w, b * p, q, r * b + w % b);
  }

  lemma QuotientIs(a: nat, p: nat, q: nat, r: nat)
    requires r < p && a == q * p + r
    ensures a / p == q
  {
    var d := a / p;
    assert d * p + a % p == a;
    if d < q {
      Multiples(d, q, p);
    } else if d > q {
      Multiples(q, d, p);
    }
  }

  lemma Multiples(a: nat, b: nat, p: nat)
    requires a < b
    ensures a * p + p <= b * p
  {
    assert (b - a) * p == b * p - a * p;
    assert (b - a - 1) * p >= 0;
    assert (b - a - 1) * p == (b - a) * p - p;
  }

  lemma Pow256At8()
    ensures Pow256(8) == 0x1_0000_0000_0000_0000
  {
    assert Pow256(2) == 0x1_0000;
    assert Pow256(4) == 0x1_0000_0000;
    assert Pow256(6) == 0x1_0000_0000_0000;
  }

  function EncodeWords(ws: seq<U64>): (r: seq<Byte>)
    ensures |r| == 8 * |ws|
  {
    if ws == [] then [] else ToBytes(ws[0], 8) + EncodeWords(ws[1..])
  }

  function DecodeWords(bs: seq<Byte>): (r: seq<U64>)
    ensures |r| == |bs| / 8
  {
    if |bs| < 8 then []
    else
      FromBytesBound(bs[..8]);
      Pow256At8();
      [FromBytes(bs[..8])] + DecodeWords(bs[8..])
  }

  lemma {:induction false} DecodeEncodeWords(ws: seq<U64>)
    ensures DecodeWords(EncodeWords(ws)) == ws
  {
    if ws != [] {
      Pow256At8();
      FromToBytes(ws[0], 8);
      DecodeEncodeWords(ws[1..]);
      assert EncodeWords(ws)[..8] == ToBytes(ws[0], 8);
      assert EncodeWords(ws)[8..] == EncodeWords(ws[1..]);
      assert ws == [ws[0]] + ws[1..];
    }
  }

  /** The in-memory log header; its image fills one block exactly. */
  datatype LogHeader = LogHeader(numBlocks: U64, blockNo: seq<U64>)

  type Header = h: LogHeader | |h.blockNo| == LOG_MAX_SIZE witness LogHeader(0, seq(63, i => 0))

  function EncodeHeader(h: Header): Block {
    EncodeWords([h.numBlocks] + h.blockNo)
  }

  function DecodeHeader(b: Block): Header {
    var ws := DecodeWords(b);
    LogHeader(ws[0], ws[1..])
  }

  lemma DecodeEncodeHeader(h: Header)
    ensures DecodeHeader(EncodeHeader(h)) == h
  {
    DecodeEncodeWords([h.numBlocks] + h.blockNo);
    assert ([h.numBlocks] + h.blockNo)[1..] == h.blockNo;
  }

  lemma {:induction false} WordAt(ws: seq<U64>, i: nat)
    requires i < |ws|
    ensures EncodeWords(ws)[8 * i..8 * i + 8] == ToBytes(ws[i], 8)
  {
    if i > 0 {
      WordAt(ws[1..], i - 1);
      assert EncodeWords(ws)[8..] == EncodeWords(ws[1..]);
      assert EncodeWords(ws)[8 * i..8 * i + 8] == EncodeWords(ws)[8..][8 * (i - 1)..8 * (i - 1) + 8];
    }
  }

  /** The header block: the number of logged blocks in its first eight bytes, then slot by slot their numbers. */
  lemma HeaderLayout(h: Header, i: nat)
    requires i < LOG_MAX_SIZE
    ensures EncodeHeader(h)[..8] == ToBytes(h.numBlocks, 8)
    ensures EncodeHeader(h)[8 + 8 * i..16 + 8 * i] == ToBytes(h.blockNo[i], 8)
  {
    var ws := [h.numBlocks] + h.blockNo;
    WordAt(ws, 0);
    WordAt(ws, i + 1);
  }
}

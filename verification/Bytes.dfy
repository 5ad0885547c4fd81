/** The index file as a sequence of bytes: 4-byte integers, and writes at an offset. */
module Bytes {
  import opened Trees

  type byte = x: int | 0 <= x < 256

  /** The four bytes of an `int`, low byte first; a value outside the `int` range wraps around. */
  function EncodeInt(v: int): (b: seq<byte>)
    ensures |b| == 4
  {
    var u := v % 0x1_0000_0000;
    [u % 256, u / 256 % 256, u / 0x1_0000 % 256, u / 0x100_0000]
  }

  function DecodeInt(b: seq<byte>): (v: int)
    requires |b| == 4
    ensures IsInt32(v)
  {
    var b0: int, b1: int, b2: int, b3: int := b[0], b[1], b[2], b[3];
    var u := b0 + 256 * b1 + 0x1_0000 * b2 + 0x100_0000 * b3;
    if u < 0x8000_0000 then u else u - 0x1_0000_0000
  }

  lemma DecodesEncoded(v: int)
    requires IsInt32(v)
    ensures DecodeInt(EncodeInt(v)) == v
  {
    var u := v % 0x1_0000_0000;
    assert u == if v >= 0 then v else v + 0x1_0000_0000;
    assert u / 0x1_0000 == u / 256 / 256;
    assert u / 0x100_0000 == u / 0x1_0000 / 256;
  }

  /** The integer at a byte offset. */
  function IntAt(f: seq<byte>, off: nat): int
    requires off + 4 <= |f|
  {
    DecodeInt(f[off..off + 4])
  }

  function EncodeWords(ws: seq<int>): (b: seq<byte>)
    ensures |b| == 4 * |ws|
  {
    if ws == [] then [] else EncodeInt(ws[0]) + EncodeWords(ws[1..])
  }

  lemma {:induction false} EncodeWordsSum(a: seq<int>, b: seq<int>)
    ensures EncodeWords(a + b) == EncodeWords(a) + EncodeWords(b)
  {
    if a == [] {
      assert a + b == b;
    } else {
      assert (a + b)[1..] == a[1..] + b;
      EncodeWordsSum(a[1..], b);
    }
  }

  /** `n` integers from a byte offset on. */
  function WordsAt(f: seq<byte>, off: nat, n: nat): (ws: seq<int>)
    requires off + 4 * n <= |f|
    ensures |ws| == n
    decreases n
  {
    if n == 0 then [] else [IntAt(f, off)] + WordsAt(f, off + 4, n - 1)
  }

  lemma {:induction false} WordsAtSnoc(f: seq<byte>, off: nat, n: nat)
    requires off + 4 * (n + 1) <= |f|
    ensures WordsAt(f, off, n + 1) == WordsAt(f, off, n) + [IntAt(f, off + 4 * n)]
    decreases n
  {
    if n > 0 {
      WordsAtSnoc(f, off + 4, n - 1);
    }
  }

  lemma SliceOfSlice<T>(f: seq<T>, lo: nat, hi: nat, a: nat, b: nat)
    requires lo <= hi <= |f| && a <= b <= hi - lo
    ensures f[lo..hi][a..b] == f[lo + a..lo + b]
  {
    var s := f[lo..hi];
    forall k | 0 <= k < b - a ensures s[a..b][k] == f[lo + a..lo + b][k] {
      assert s[a..b][k] == s[a + k];
    }
  }

  /** Reading back what was written. */
  lemma {:induction false} WordsReadBack(f: seq<byte>, off: nat, ws: seq<int>)
    requires off + 4 * |ws| <= |f| && f[off..off + 4 * |ws|] == EncodeWords(ws)
    requires forall i :: 0 <= i < |ws| ==> IsInt32(ws[i])
    ensures WordsAt(f, off, |ws|) == ws
    decreases |ws|
  {
    if ws != [] {
      var n := 4 * |ws|;
      var first, rest := EncodeInt(ws[0]), EncodeWords(ws[1..]);
      assert EncodeWords(ws) == first + rest;
      SliceOfSlice(f, off, off + n, 0, 4);
      SliceOfSlice(f, off, off + n, 4, n);
      assert (first + rest)[0..4] == first && (first + rest)[4..n] == rest;
      DecodesEncoded(ws[0]);
      WordsReadBack(f, off + 4, ws[1..]);
    }
  }

  function Zeros(n: nat): seq<byte> {
    seq(n, _ => 0)
  }

  /** The file after writing `data` at `off`; a gap behind the old end fills with zeros. */
  function Overwrite(f: seq<byte>, off: nat, data: seq<byte>): seq<byte> {
    if data == [] then f
    else if off > |f| then f + Zeros(off - |f|) + data
    else f[..off] + data + (if off + |data| <= |f| then f[off + |data|..] else [])
  }

  /** A write changes nothing before it and nothing behind it. */
  lemma OverwriteFrame(f: seq<byte>, off: nat, data: seq<byte>, lo: nat, hi: nat)
    requires lo <= hi <= |f| && (hi <= off || off + |data| <= lo)
    ensures hi <= |Overwrite(f, off, data)| && Overwrite(f, off, data)[lo..hi] == f[lo..hi]
  {
  }

}

/** Little-endian words inside byte strings, read and written at offsets. */
module Bytes {
  import opened Words

  type Text = seq<Byte>

  function Word(p: int, q: int, r: int, s: int): int
  {
    p + 0x100 * q + 0x1_0000 * r + 0x100_0000 * s
  }

  function U16At(b: Text, off: nat): (v: U16)
    requires off + 2 <= |b|
  {
    Word(b[off], b[off + 1], 0, 0)
  }

  function U32At(b: Text, off: nat): (v: U32)
    requires off + 4 <= |b|
  {
    Word(b[off], b[off + 1], b[off + 2], b[off + 3])
  }

  function U64At(b: Text, off: nat): (v: U64)
    requires off + 8 <= |b|
  {
    U32At(b, off) + TWO_TO_THE_32 * U32At(b, off + 4)
  }

  function LE16(v: U16): (r: Text)
    ensures |r| == 2
  {
    [v % 0x100, v / 0x100]
  }

  function LE32(v: U32): (r: Text)
    ensures |r| == 4
  {
    [v % 0x100, v / 0x100 % 0x100, v / 0x1_0000 % 0x100, v / 0x100_0000]
  }

  lemma DigitsOf32(v: U32)
    ensures v % 0x100 + 0x100 * (v / 0x100 % 0x100) + 0x1_0000 * (v / 0x1_0000 % 0x100) + 0x100_0000 * (v / 0x100_0000) == v
  {
    var a := v / 0x100;
    assert v == 0x100 * a + v % 0x100;
    var b := a / 0x100;
    assert a == 0x100 * b + a % 0x100;
    assert b == v / 0x1_0000;
    var c := b / 0x100;
    assert b == 0x100 * c + b % 0x100;
    assert c == v / 0x100_0000;
  }

  lemma ReadLE16(v: U16)
    ensures U16At(LE16(v), 0) == v
  {
  }

  lemma ReadLE32(v: U32)
    ensures U32At(LE32(v), 0) == v
  {
    DigitsOf32(v);
  }

  /** Equal words have equal bytes. */
  lemma U32Bytes(b: Text, off: nat)
    requires off + 4 <= |b|
    ensures b[off..off + 4] == LE32(U32At(b, off))
  {
    var v := U32At(b, off);
    DigitsOf32(v);
    Digit32(b[off], b[off + 1], b[off + 2], b[off + 3]);
  }

  lemma Digit32(p: Byte, q: Byte, r: Byte, s: Byte)
    ensures LE32(Word(p, q, r, s)) == [p, q, r, s]
  {
    var v := Word(p, q, r, s);
    assert v % 0x100 == p && v / 0x100 == q + 0x100 * r + 0x1_0000 * s;
    assert v / 0x1_0000 == r + 0x100 * s;
    assert v / 0x100_0000 == s;
  }

  /** s with w written over it at off. */
  function Splice(s: Text, off: nat, w: Text): (t: Text)
    requires off + |w| <= |s|
    ensures |t| == |s|
    ensures forall i :: 0 <= i < |s| ==> t[i] == if off <= i < off + |w| then w[i - off] else s[i]
  {
    s[..off] + w + s[off + |w|..]
  }

  /** A write leaves every range it does not meet alone. */
  lemma SpliceApart(s: Text, off: nat, w: Text, lo: nat, hi: nat)
    requires off + |w| <= |s| && lo <= hi <= |s|
    requires hi <= off || off + |w| <= lo
    ensures Splice(s, off, w)[lo..hi] == s[lo..hi]
  {
  }

  lemma SpliceHere(s: Text, off: nat, w: Text)
    requires off + |w| <= |s|
    ensures Splice(s, off, w)[off..off + |w|] == w
  {
  }

  /** A word read depends on its four bytes only. */
  lemma U32Local(b: Text, c: Text, off: nat, off': nat)
    requires off + 4 <= |b| && off' + 4 <= |c| && b[off..off + 4] == c[off'..off' + 4]
    ensures U32At(b, off) == U32At(c, off')
  {
    var x, y := b[off..off + 4], c[off'..off' + 4];
    assert x[0] == y[0] && x[1] == y[1] && x[2] == y[2] && x[3] == y[3];
    assert b[off] == x[0] && b[off + 1] == x[1] && b[off + 2] == x[2] && b[off + 3] == x[3];
    assert c[off'] == y[0] && c[off' + 1] == y[1] && c[off' + 2] == y[2] && c[off' + 3] == y[3];
  }

  lemma ReadPut32(s: Text, off: nat, v: U32)
    requires off + 4 <= |s|
    ensures U32At(Splice(s, off, LE32(v)), off) == v
  {
    ReadLE32(v);
    SpliceHere(s, off, LE32(v));
    U32Local(Splice(s, off, LE32(v)), LE32(v), off, 0);
  }

  // -- Tables of words ---------------------------------------------------------------

  function WordsAt(b: Text, off: nat, n: nat): (r: seq<U32>)
    requires off + 4 * n <= |b|
    ensures |r| == n
    ensures forall k :: 0 <= k < n ==> r[k] == U32At(b, off + 4 * k)
  {
    seq(n, (k: nat) requires k < n => U32At(b, off + 4 * k))
  }

  lemma WordsPut(s: Text, off: nat, n: nat, k: nat, v: U32)
    requires off + 4 * n <= |s| && k < n
    ensures WordsAt(Splice(s, off + 4 * k, LE32(v)), off, n) == WordsAt(s, off, n)[k := v]
  {
    var t := Splice(s, off + 4 * k, LE32(v));
    ReadPut32(s, off + 4 * k, v);
    forall i: nat | i < n && i != k ensures U32At(t, off + 4 * i) == U32At(s, off + 4 * i) {
      SpliceApart(s, off + 4 * k, LE32(v), off + 4 * i, off + 4 * i + 4);
      U32Local(t, s, off + 4 * i, off + 4 * i);
    }
  }

  lemma WordsLocal(b: Text, c: Text, off: nat, n: nat)
    requires off + 4 * n <= |b| && |b| == |c| && b[off..off + 4 * n] == c[off..off + 4 * n]
    ensures WordsAt(b, off, n) == WordsAt(c, off, n)
  {
    forall i: nat | off <= i < off + 4 * n ensures b[i] == c[i] {
      assert b[off..off + 4 * n][i - off] == c[off..off + 4 * n][i - off];
    }
    forall k: nat | k < n ensures U32At(b, off + 4 * k) == U32At(c, off + 4 * k) {
      assert b[off + 4 * k..off + 4 * k + 4] == c[off + 4 * k..off + 4 * k + 4];
      U32Local(b, c, off + 4 * k, off + 4 * k);
    }
  }

  /** Tables that read alike are written alike. */
  lemma WordsBytes(b: Text, c: Text, off: nat, n: nat)
    requires off + 4 * n <= |b| && |b| == |c| && WordsAt(b, off, n) == WordsAt(c, off, n)
    ensures b[off..off + 4 * n] == c[off..off + 4 * n]
  {
    forall i | off <= i < off + 4 * n ensures b[i] == c[i] {
      var k := (i - off) / 4;
      U32Bytes(b, off + 4 * k);
      U32Bytes(c, off + 4 * k);
      assert WordsAt(b, off, n)[k] == WordsAt(c, off, n)[k];
      assert b[off + 4 * k..off + 4 * k + 4][i - off - 4 * k] == b[i];
      assert c[off + 4 * k..off + 4 * k + 4][i - off - 4 * k] == c[i];
    }
  }
}

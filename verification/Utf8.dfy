/** Names as runes and as the bytes that encode them: why a byte search finds exactly the rune runs. */
module Utf8 {
  import opened Words

  type Rune = r: int | 0 <= r < 0x11_0000

  predicate Lead(b: Byte) { b < 0x80 || 0xC0 <= b }

  function Encode(r: Rune): (b: seq<Byte>)
    ensures 1 <= |b| <= 4 && Lead(b[0]) && forall k :: 1 <= k < |b| ==> !Lead(b[k])
  {
    if r < 0x80 then [r]
    else if r < 0x800 then [0xC0 + r / 0x40, 0x80 + r % 0x40]
    else if r < 0x1_0000 then [0xE0 + r / 0x1000, 0x80 + r / 0x40 % 0x40, 0x80 + r % 0x40]
    else [0xF0 + r / 0x4_0000, 0x80 + r / 0x1000 % 0x40, 0x80 + r / 0x40 % 0x40, 0x80 + r % 0x40]
  }

  function EncodeAll(s: seq<Rune>): (b: seq<Byte>)
  {
    if s == [] then [] else Encode(s[0]) + EncodeAll(s[1..])
  }

  ghost predicate Begins<T>(text: seq<T>, part: seq<T>, at: nat)
  {
    at + |part| <= |text| && text[at..at + |part|] == part
  }

  ghost predicate Occurs<T>(text: seq<T>, part: seq<T>)
  {
    exists at: nat :: Begins(text, part, at)
  }

  lemma OccursIn<T>(text: seq<T>, part: seq<T>, at: nat)
    requires Begins(text, part, at)
    ensures Occurs(text, part)
  {
  }

  /** What occurs in a tail occurs in the whole. */
  lemma OccursLater<T>(text: seq<T>, part: seq<T>, from: nat)
    requires from <= |text| && Occurs(text[from..], part)
    ensures Occurs(text, part)
  {
    var at: nat :| Begins(text[from..], part, at);
    assert text[from + at..from + at + |part|] == text[from..][at..at + |part|];
    OccursIn(text, part, from + at);
  }

  /** The first byte of an encoding tells its length, so two encodings that agree byte for byte are of one rune. */
  lemma EncodingsDiffer(r: Rune, q: Rune, rest: seq<Byte>, more: seq<Byte>)
    requires Encode(r) + rest == Encode(q) + more
    ensures r == q && rest == more
  {
    var left, right := Encode(r) + rest, Encode(q) + more;
    assert left[0] == Encode(r)[0] && right[0] == Encode(q)[0];
    assert |Encode(r)| == |Encode(q)|;
    assert left[..|Encode(r)|] == Encode(r) && right[..|Encode(q)|] == Encode(q);
    assert left[|Encode(r)|..] == rest && right[|Encode(q)|..] == more;
    DecodesBack(r);
    DecodesBack(q);
  }

  /** The rune some bytes encode. */
  function Decode(b: seq<int>): (r: int)
  {
    if |b| == 1 then b[0]
    else if |b| == 2 then 0x40 * (b[0] - 0xC0) + (b[1] - 0x80)
    else if |b| == 3 then 0x1000 * (b[0] - 0xE0) + 0x40 * (b[1] - 0x80) + (b[2] - 0x80)
    else if |b| == 4 then 0x4_0000 * (b[0] - 0xF0) + 0x1000 * (b[1] - 0x80) + 0x40 * (b[2] - 0x80) + (b[3] - 0x80)
    else 0
  }

  lemma DecodesBack(r: Rune)
    ensures Decode(Encode(r)) == r
  {
    var q := r / 0x40;
    assert r == 0x40 * q + r % 0x40;
    var n := q / 0x40;
    assert q == 0x40 * n + q % 0x40 && n == r / 0x1000;
    assert n == 0x40 * (n / 0x40) + n % 0x40 && n / 0x40 == r / 0x4_0000;
  }

  lemma {:induction false} PrefixDecodes(s: seq<Rune>, part: seq<Rune>)
    requires |EncodeAll(part)| <= |EncodeAll(s)| && EncodeAll(s)[..|EncodeAll(part)|] == EncodeAll(part)
    ensures |part| <= |s| && s[..|part|] == part
  {
    hide Encode;
    if part != [] {
      var bytes, bits := EncodeAll(s), EncodeAll(part);
      var rest := bytes[|bits|..];
      assert bytes == bits + rest;
      assert bytes == Encode(part[0]) + (EncodeAll(part[1..]) + rest);
      assert s != [];
      EncodingsDiffer(s[0], part[0], EncodeAll(s[1..]), EncodeAll(part[1..]) + rest);
      assert EncodeAll(s[1..])[..|EncodeAll(part[1..])|] == EncodeAll(part[1..]);
      PrefixDecodes(s[1..], part[1..]);
      assert s[..|part|] == [s[0]] + s[1..][..|part| - 1];
    }
  }

  lemma {:induction false} EncodeJoin(s: seq<Rune>, t: seq<Rune>)
    ensures EncodeAll(s + t) == EncodeAll(s) + EncodeAll(t)
  {
    hide Encode;
    if s == [] {
      assert s + t == t;
    } else {
      EncodeJoin(s[1..], t);
      assert (s + t)[1..] == s[1..] + t;
    }
  }

  /** A lead byte at any offset stands at the start of some rune. */
  lemma {:induction false} LeadIsABoundary(s: seq<Rune>, at: nat) returns (k: nat)
    requires at < |EncodeAll(s)| && Lead(EncodeAll(s)[at])
    ensures k < |s| && |EncodeAll(s[..k])| == at && EncodeAll(s)[at..] == EncodeAll(s[k..])
  {
    hide Encode;
    var n := |Encode(s[0])|;
    if at == 0 {
      k := 0;
      assert s[..0] == [] && s[0..] == s;
    } else {
      var before := LeadIsABoundary(s[1..], at - n);
      k := before + 1;
      assert s[..k] == [s[0]] + s[1..][..before];
      assert s[..k][1..] == s[1..][..before];
      assert s[k..] == s[1..][before..];
    }
  }

  lemma {:induction false} BytesFoundAreRunes(s: seq<Rune>, part: seq<Rune>, at: nat)
    requires part != [] && Begins(EncodeAll(s), EncodeAll(part), at)
    ensures Occurs(s, part)
  {
    hide Encode;
    var bytes, bits := EncodeAll(s), EncodeAll(part);
    assert bits[0] == Encode(part[0])[0];
    assert bytes[at] == bytes[at..at + |bits|][0];
    var k := LeadIsABoundary(s, at);
    assert bytes[at..][..|bits|] == bits;
    PrefixDecodes(s[k..], part);
    assert s[k..k + |part|] == s[k..][..|part|];
    OccursIn(s, part, k);
  }

  lemma {:induction false} RunesFoundAreBytes(s: seq<Rune>, part: seq<Rune>, at: nat)
    requires Begins(s, part, at)
    ensures Occurs(EncodeAll(s), EncodeAll(part))
  {
    hide Encode, EncodeAll;
    var bytes, bits := EncodeAll(s), EncodeAll(part);
    var head, tail := s[..at], s[at + |part|..];
    assert s == head + (part + tail);
    EncodeJoin(head, part + tail);
    EncodeJoin(part, tail);
    var before := EncodeAll(head);
    assert bytes == before + (bits + EncodeAll(tail));
    assert bytes[|before|..|before| + |bits|] == bits;
    OccursIn(bytes, bits, |before|);
  }

  /** On valid text the byte search a program runs finds a run of runes exactly when it is there. */
  lemma {:induction false} ByteSearchIsRuneSearch(s: seq<Rune>, part: seq<Rune>)
    requires part != []
    ensures Occurs(EncodeAll(s), EncodeAll(part)) <==> Occurs(s, part)
  {
    if Occurs(EncodeAll(s), EncodeAll(part)) {
      var at: nat :| Begins(EncodeAll(s), EncodeAll(part), at);
      BytesFoundAreRunes(s, part, at);
    }
    if Occurs(s, part) {
      var at: nat :| Begins(s, part, at);
      RunesFoundAreBytes(s, part, at);
    }
  }
}

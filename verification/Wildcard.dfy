/** The file-name search: ASCII folding, `*` for any run of runes and `?` for one. */
module Wildcard {
  import opened Words
  import opened Utf8

  const STAR: Rune := 42
  const ANY: Rune := 63

  predicate IsWild(r: Rune) { r == STAR || r == ANY }

  predicate HasWild(s: seq<Rune>) { exists k :: 0 <= k < |s| && IsWild(s[k]) }

  function FoldRune(r: int): (f: int)
    ensures 0 <= r ==> 0 <= f && (0 <= r < 0x80 ==> f < 0x80) && (0x80 <= r ==> f == r)
  {
    if 65 <= r <= 90 then r + 32 else r
  }

  function Fold(s: seq<Rune>): (f: seq<Rune>)
    ensures |f| == |s|
  {
    seq(|s|, k requires 0 <= k < |s| => FoldRune(s[k]))
  }

  /** What a query means: each part of the name is accounted for by one part of the query, in order. */
  ghost predicate Glob(p: seq<Rune>, s: seq<Rune>)
  {
    if p == [] then s == []
    else if p[0] == STAR then exists k :: 0 <= k <= |s| && Glob(p[1..], s[k..])
    else s != [] && (p[0] == ANY || p[0] == s[0]) && Glob(p[1..], s[1..])
  }

  ghost predicate Meant(query: seq<Rune>, name: seq<Rune>)
  {
    query != [] && if HasWild(query) then Glob(query, name) else Occurs(name, query)
  }

  // ---------------------------------------------------------------- the last part of a query

  /** Reading a query from its end gives the same matches as reading it from its start. */
  ghost predicate GlobSnoc(p: seq<Rune>, c: Rune, s: seq<Rune>)
  {
    if c == STAR then exists k :: 0 <= k <= |s| && Glob(p, s[..k])
    else s != [] && (c == ANY || c == s[|s| - 1]) && Glob(p, s[..|s| - 1])
  }

  lemma {:induction false} LastPart(p: seq<Rune>, c: Rune, s: seq<Rune>)
    ensures Glob(p + [c], s) <==> GlobSnoc(p, c, s)
    decreases |p|, |s|
  {
    var q := p + [c];
    if p == [] {
      assert q == [c] && q[1..] == [];
      LastAlone(c, s);
    } else {
      assert q[1..] == p[1..] + [c] && q[0] == p[0];
      if p[0] == STAR {
        forall k | 0 <= k <= |s|
          ensures Glob(q[1..], s[k..]) <==> GlobSnoc(p[1..], c, s[k..])
        {
          LastPart(p[1..], c, s[k..]);
        }
        StarThenLast(p, c, s);
      } else if s != [] {
        LastPart(p[1..], c, s[1..]);
        OneThenLast(p, c, s);
      } else {
        assert s[..0] == s;
      }
    }
  }

  lemma {:induction false} LastAlone(c: Rune, s: seq<Rune>)
    ensures Glob([c], s) <==> GlobSnoc([], c, s)
  {
    var none: seq<Rune> := [];
    assert [c][1..] == none;
    if c == STAR {
      assert s[..0] == none && s[|s|..] == none;
      assert Glob(none, s[..0]) && Glob(none, s[|s|..]);
    } else if s != [] {
      assert s[1..] == none <==> |s| == 1;
      assert s[..|s| - 1] == none <==> |s| == 1;
    }
  }

  lemma {:induction false} OneThenLast(p: seq<Rune>, c: Rune, s: seq<Rune>)
    requires p != [] && p[0] != STAR && s != []
    ensures GlobSnoc(p, c, s) <==> (p[0] == ANY || p[0] == s[0]) && GlobSnoc(p[1..], c, s[1..])
  {
    var rest := s[1..];
    if c == STAR {
      forall k | 1 <= k <= |s|
        ensures Glob(p, s[..k]) <==> (p[0] == ANY || p[0] == s[0]) && Glob(p[1..], rest[..k - 1])
      {
        assert s[..k][1..] == rest[..k - 1];
      }
      assert !Glob(p, s[..0]);
      forall j | 0 <= j <= |rest| && Glob(p[1..], rest[..j]) && (p[0] == ANY || p[0] == s[0])
        ensures Glob(p, s[..j + 1])
      {
        var k := j + 1;
        assert s[..k][1..] == rest[..j];
      }
      if GlobSnoc(p, c, s) {
        var k :| 0 <= k <= |s| && Glob(p, s[..k]);
        var j := k - 1;
        assert Glob(p[1..], rest[..j]);
      }
    } else if |s| == 1 {
      assert !Glob(p, s[..0]);
    } else {
      assert s[..|s| - 1][1..] == rest[..|rest| - 1];
    }
  }

  lemma {:induction false} StarThenLast(p: seq<Rune>, c: Rune, s: seq<Rune>)
    requires p != [] && p[0] == STAR
    ensures GlobSnoc(p, c, s) <==> exists k :: 0 <= k <= |s| && GlobSnoc(p[1..], c, s[k..])
  {
    forall k, j | 0 <= k <= j <= |s|
      ensures s[..j][k..] == s[k..][..j - k]
    {
    }
    if GlobSnoc(p, c, s) {
      var j :| 0 <= j <= |s| && Glob(p, s[..j]) && (c == STAR || (j == |s| - 1 && (c == ANY || c == s[j])));
      var k :| 0 <= k <= j && Glob(p[1..], s[..j][k..]);
      var n := j - k;
      assert Glob(p[1..], s[k..][..n]);
      assert GlobSnoc(p[1..], c, s[k..]);
    }
    if k :| 0 <= k <= |s| && GlobSnoc(p[1..], c, s[k..]) {
      var t := s[k..];
      var n :| 0 <= n <= |t| && Glob(p[1..], t[..n]) && (c == STAR || (n == |t| - 1 && (c == ANY || c == t[n])));
      var j := k + n;
      assert s[..j][k..] == t[..n];
      assert Glob(p, s[..j]);
    }
  }

  // ---------------------------------------------------------------- what a query matches

  /** Without stars a query matches the names of its own length that agree with it rune by rune, but for the `?`s. */
  lemma {:induction false} OneByOne(p: seq<Rune>, s: seq<Rune>)
    requires STAR !in p
    ensures Glob(p, s) <==> |p| == |s| && forall k :: 0 <= k < |p| ==> p[k] == ANY || p[k] == s[k]
  {
    if p != [] && s != [] {
      OneByOne(p[1..], s[1..]);
      if |p| == |s| && p[0] in [ANY, s[0]] {
        forall k | 0 <= k < |p| ensures (p[k] == ANY || p[k] == s[k]) <==> k == 0 || p[1..][k - 1] == ANY || p[1..][k - 1] == s[1..][k - 1] { }
      }
    }
  }

  lemma {:induction false} PartsJoin(p: seq<Rune>, q: seq<Rune>, s: seq<Rune>, t: seq<Rune>)
    requires Glob(p, s) && Glob(q, t)
    ensures Glob(p + q, s + t)
  {
    if p == [] {
      assert p + q == q && s + t == t;
    } else {
      assert (p + q)[1..] == p[1..] + q;
      var from: nat := if p[0] == STAR then var k: nat :| k <= |s| && Glob(p[1..], s[k..]); k else 1;
      PartsJoin(p[1..], q, s[from..], t);
      assert (s + t)[from..] == s[from..] + t;
    }
  }

  lemma {:induction false} PartsOf(p: seq<Rune>, q: seq<Rune>, s: seq<Rune>) returns (k: nat)
    requires Glob(p + q, s)
    ensures k <= |s| && Glob(p, s[..k]) && Glob(q, s[k..])
  {
    if p == [] {
      assert p + q == q && s[0..] == s;
      k := 0;
    } else {
      assert (p + q)[1..] == p[1..] + q;
      var from: nat := 1;
      if p[0] == STAR { from :| from <= |s| && Glob((p + q)[1..], s[from..]); }
      var n := PartsOf(p[1..], q, s[from..]);
      k := from + n;
      assert s[k..] == s[from..][n..];
      FirstPart(p, s, from, k);
    }
  }

  lemma {:induction false} FirstPart(p: seq<Rune>, s: seq<Rune>, from: nat, k: nat)
    requires p != [] && from <= k <= |s| && Glob(p[1..], s[from..][..k - from])
    requires p[0] == STAR || (from == 1 && (p[0] == ANY || p[0] == s[0]))
    ensures Glob(p, s[..k])
  {
    assert s[..k][from..] == s[from..][..k - from];
  }

  /** A star stands for any run of runes: what is before it matches a start of the name, what is after it an end, and they do not overlap. */
  lemma {:induction false} StarSplits(p: seq<Rune>, q: seq<Rune>, s: seq<Rune>)
    ensures Glob(p + [STAR] + q, s) <==> exists a, b :: 0 <= a <= b <= |s| && Glob(p, s[..a]) && Glob(q, s[b..])
  {
    var tail := [STAR] + q;
    assert p + [STAR] + q == p + tail && tail[1..] == q;
    if Glob(p + tail, s) {
      var a := PartsOf(p, tail, s);
      var n: nat :| n <= |s[a..]| && Glob(q, s[a..][n..]);
      assert s[a..][n..] == s[a + n..];
    }
    if a, b :| 0 <= a <= b <= |s| && Glob(p, s[..a]) && Glob(q, s[b..]) {
      assert s[a..][b - a..] == s[b..];
      assert Glob(tail, s[a..]);
      PartsJoin(p, tail, s[..a], s[a..]);
      assert s[..a] + s[a..] == s;
    }
  }

  // ---------------------------------------------------------------- the literal prefilter

  /** The length of the literal run a query starts with. */
  function Run(p: seq<Rune>): (n: nat)
    ensures n <= |p| && !HasWild(p[..n]) && (n < |p| ==> IsWild(p[n]))
  {
    if p == [] || IsWild(p[0]) then 0
    else
      var n := Run(p[1..]);
      assert p[..n + 1] == [p[0]] + p[1..][..n];
      n + 1
  }

  /** The literal runs of a query, as splitting it on its wildcards gives them. */
  function Literals(p: seq<Rune>): (fields: seq<seq<Rune>>)
    ensures forall k :: 0 <= k < |fields| ==> fields[k] != []
    decreases |p|
  {
    if p == [] then []
    else if IsWild(p[0]) then Literals(p[1..])
    else [p[..Run(p)]] + Literals(p[Run(p)..])
  }

  lemma NoWildLater(r: Rune, s: seq<Rune>)
    ensures HasWild([r] + s) <==> IsWild(r) || HasWild(s)
  {
    var both := [r] + s;
    assert both[0] == r;
    forall k | 0 <= k < |s| ensures both[k + 1] == s[k] { }
    if k :| 0 <= k < |s| && IsWild(s[k]) {
      var j := k + 1;
      assert IsWild(both[j]);
    }
  }

  lemma {:induction false} LiteralPrefix(p: seq<Rune>, s: seq<Rune>, n: nat)
    requires n <= |p| && !HasWild(p[..n]) && Glob(p, s)
    ensures n <= |s| && s[..n] == p[..n] && Glob(p[n..], s[n..])
  {
    if n == 0 {
      assert p[0..] == p && s[0..] == s;
    } else {
      assert !IsWild(p[..n][0]);
      assert p[..n] == [p[0]] + p[1..][..n - 1];
      NoWildLater(p[0], p[1..][..n - 1]);
      LiteralPrefix(p[1..], s[1..], n - 1);
      assert p[n..] == p[1..][n - 1..] && s[n..] == s[1..][n - 1..];
      assert s[..n] == [s[0]] + s[1..][..n - 1];
      assert p[..n] == [p[0]] + p[1..][..n - 1];
    }
  }

  /** Every literal run of a query occurs in every name it matches, so the prefilter rejects no match. */
  lemma {:induction false} PrefilterKeepsMatches(p: seq<Rune>, s: seq<Rune>)
    requires Glob(p, s)
    ensures forall k :: 0 <= k < |Literals(p)| ==> Occurs(s, Literals(p)[k])
    decreases |p|
  {
    if p != [] {
      if IsWild(p[0]) {
        var from: nat :| from <= |s| && Glob(p[1..], s[from..]);
        PrefilterKeepsMatches(p[1..], s[from..]);
        forall k | 0 <= k < |Literals(p)| ensures Occurs(s, Literals(p)[k]) {
          OccursLater(s, Literals(p[1..])[k], from);
        }
      } else {
        var n := Run(p);
        LiteralPrefix(p, s, n);
        OccursIn(s, p[..n], 0);
        PrefilterKeepsMatches(p[n..], s[n..]);
        forall k | 0 <= k < |Literals(p[n..])| ensures Occurs(s, Literals(p[n..])[k]) {
          OccursLater(s, Literals(p[n..])[k], n);
        }
      }
    }
  }

  /** A query without wildcards is the same query between two stars. */
  lemma {:induction false} SubstringIsStarred(q: seq<Rune>, s: seq<Rune>)
    requires !HasWild(q)
    ensures Occurs(s, q) <==> Glob([STAR] + q + [STAR], s)
  {
    var p := [STAR] + q + [STAR];
    var tail := q + [STAR];
    assert p[1..] == tail;
    assert tail[..|q|] == q && tail[|q|..] == [STAR];
    if Occurs(s, q) {
      var at: nat :| Begins(s, q, at);
      var rest := s[at + |q|..];
      assert rest[|rest|..] == [];
      assert [STAR][1..] == [];
      assert Glob([STAR], rest);
      assert s[at..] == q + rest;
      LiteralThen(q, [STAR], rest);
      assert Glob(p[1..], s[at..]);
    }
    if Glob(p, s) {
      var k: nat :| k <= |s| && Glob(p[1..], s[k..]);
      LiteralPrefix(tail, s[k..], |q|);
      assert s[k..k + |q|] == s[k..][..|q|];
      OccursIn(s, q, k);
    }
  }

  lemma {:induction false} LiteralThen(q: seq<Rune>, p: seq<Rune>, s: seq<Rune>)
    requires !HasWild(q) && Glob(p, s)
    ensures Glob(q + p, q + s)
  {
    if q == [] {
      assert q + p == p && q + s == s;
    } else {
      assert !IsWild(q[0]);
      assert q == [q[0]] + q[1..];
      NoWildLater(q[0], q[1..]);
      LiteralThen(q[1..], p, s);
      assert (q + p)[1..] == q[1..] + p && (q + s)[1..] == q[1..] + s;
    }
  }

  // ---------------------------------------------------------------- folding

  function FoldBytes(b: seq<Byte>): (f: seq<Byte>)
    ensures |f| == |b|
  {
    seq(|b|, k requires 0 <= k < |b| => FoldRune(b[k]))
  }

  /** Folding byte by byte folds the runes: only ASCII letters change, and they are single bytes. */
  lemma {:induction false} FoldingBytesFoldsRunes(s: seq<Rune>)
    ensures EncodeAll(Fold(s)) == FoldBytes(EncodeAll(s))
  {
    if s != [] {
      FoldingBytesFoldsRunes(s[1..]);
      assert Fold(s)[1..] == Fold(s[1..]);
      assert Encode(Fold(s)[0]) == FoldBytes(Encode(s[0]));
      assert FoldBytes(EncodeAll(s)) == FoldBytes(Encode(s[0])) + FoldBytes(EncodeAll(s[1..]));
    }
  }

  /** Two runes fold alike exactly when they are the same or one ASCII letter in both cases. */
  lemma FoldsAlike(a: Rune, b: Rune)
    ensures FoldRune(a) == FoldRune(b) <==> a == b || (65 <= a <= 90 && b == a + 32) || (65 <= b <= 90 && a == b + 32)
  {
  }

  lemma FoldKeepsWild(s: seq<Rune>)
    ensures HasWild(Fold(s)) <==> HasWild(s)
  {
    forall k | 0 <= k < |s| ensures IsWild(Fold(s)[k]) <==> IsWild(s[k]) { }
    if k :| 0 <= k < |s| && IsWild(s[k]) { assert IsWild(Fold(s)[k]); }
    if k :| 0 <= k < |s| && IsWild(Fold(s)[k]) { assert IsWild(s[k]); }
  }

  // ---------------------------------------------------------------- the program

  /** Whether the folded bytes of `name` contain `lower`, trying each start in turn. */
  method ContainsInsensitive(name: seq<Byte>, lower: seq<Byte>) returns (found: bool)
    ensures found <==> Occurs(FoldBytes(name), lower)
  {
    var start := 0;
    while start + |lower| <= |name|
      invariant 0 <= start
      invariant forall at: nat :: at < start ==> !Begins(FoldBytes(name), lower, at)
    {
      var agrees := true;
      var j := 0;
      while j < |lower|
        invariant 0 <= j <= |lower|
        invariant agrees && FoldBytes(name)[start..start + j] == lower[..j]
      {
        var b := name[start + j];
        if 65 <= b <= 90 { b := b + 32; }
        if b != lower[j] {
          agrees := false;
          break;
        }
        assert FoldBytes(name)[start..start + j + 1] == FoldBytes(name)[start..start + j] + [FoldBytes(name)[start + j]];
        j := j + 1;
      }
      if agrees {
        OccursIn(FoldBytes(name), lower, start);
        return true;
      }
      assert FoldBytes(name)[start..start + |lower|][j] == FoldBytes(name)[start + j];
      start := start + 1;
    }
    found := false;
  }

  datatype NamePattern = NamePattern(query: seq<Rune>, wildcard: bool, literals: seq<seq<Rune>>)

  function ParseNamePattern(query: seq<Rune>): (p: NamePattern)
  {
    NamePattern(Fold(query), HasWild(query), if HasWild(query) then Literals(Fold(query)) else [])
  }

  ghost predicate Parsed(p: NamePattern)
  {
    p.wildcard == HasWild(p.query) && p.literals == if p.wildcard then Literals(p.query) else []
  }

  /** Row `i` of the table: which prefixes of the pattern match the first `i` runes. */
  ghost predicate IsRow(row: seq<bool>, p: seq<Rune>, s: seq<Rune>, i: nat)
    requires i <= |s|
  {
    |row| == |p| + 1 && forall j :: 0 <= j <= |p| ==> row[j] == Glob(p[..j], s[..i])
  }

  lemma {:induction false} FirstRowEntry(p: seq<Rune>, j: nat)
    requires j < |p|
    ensures Glob(p[..j + 1], []) <==> p[j] == STAR && Glob(p[..j], [])
  {
    var none: seq<Rune> := [];
    assert p[..j + 1] == p[..j] + [p[j]];
    LastPart(p[..j], p[j], none);
    assert none[..0] == none;
  }

  lemma {:induction false} NextRowEntry(p: seq<Rune>, s: seq<Rune>, i: nat, j: nat)
    requires j < |p| && i < |s|
    ensures p[j] == STAR ==> (Glob(p[..j + 1], s[..i + 1]) <==> Glob(p[..j + 1], s[..i]) || Glob(p[..j], s[..i + 1]))
    ensures p[j] != STAR ==> (Glob(p[..j + 1], s[..i + 1]) <==> (p[j] == ANY || p[j] == s[i]) && Glob(p[..j], s[..i]))
  {
    hide Glob;
    var text := s[..i + 1];
    assert p[..j + 1] == p[..j] + [p[j]];
    LastPart(p[..j], p[j], text);
    LastPart(p[..j], p[j], s[..i]);
    assert text[..i] == s[..i] && text[..i + 1] == text;
    assert forall k :: 0 <= k <= i ==> text[..k] == s[..i][..k];
  }

  /** The first row: a leading run of stars matches the empty name and nothing else does. */
  method FirstRow(p: seq<Rune>) returns (prev: array<bool>)
    ensures IsRow(prev[..], p, [], 0)
    ensures fresh(prev)
  {
    prev := new bool[|p| + 1](_ => false);
    prev[0] := true;
    var none: seq<Rune> := [];
    assert p[..0] == none && none[..0] == none;
    var j := 0;
    while j < |p| && p[j] == STAR
      invariant 0 <= j <= |p|
      invariant forall k :: 0 <= k <= j ==> prev[k] && Glob(p[..k], none)
      invariant forall k :: j < k <= |p| ==> !prev[k]
    {
      FirstRowEntry(p, j);
      prev[j + 1] := true;
      j := j + 1;
    }
    NothingElse(p, j);
  }

  lemma {:induction false} NothingElse(p: seq<Rune>, j: nat)
    requires j <= |p| && (j < |p| ==> p[j] != STAR)
    ensures forall k :: j < k <= |p| ==> !Glob(p[..k], [])
  {
    var k := j;
    while k < |p|
      invariant j <= k <= |p|
      invariant forall m :: j < m <= k ==> !Glob(p[..m], [])
    {
      FirstRowEntry(p, k);
      k := k + 1;
    }
  }

  /** One step of the table: the row for one more rune, built from the row before it. */
  method NextRow(p: seq<Rune>, ghost s: seq<Rune>, ghost i: nat, r: Rune, prev: array<bool>, curr: array<bool>)
    requires i < |s| && s[i] == r && prev != curr
    requires IsRow(prev[..], p, s, i) && curr.Length == |p| + 1
    modifies curr
    ensures IsRow(curr[..], p, s, i + 1)
  {
    hide Glob;
    for k := 0 to curr.Length
      invariant forall m :: 0 <= m < k ==> !curr[m]
    {
      curr[k] := false;
    }
    NoPartNoRune(s, i);
    assert p[..0] == [];
    for j := 0 to |p|
      invariant forall k :: 0 <= k <= j ==> curr[k] == Glob(p[..k], s[..i + 1])
      invariant forall k :: j < k <= |p| ==> !curr[k]
    {
      NextRowEntry(p, s, i, j);
      assert prev[..][j + 1] == Glob(p[..j + 1], s[..i]) && prev[..][j] == Glob(p[..j], s[..i]);
      if p[j] == STAR {
        curr[j + 1] := prev[j + 1] || curr[j];
      } else if p[j] == ANY || p[j] == r {
        curr[j + 1] := prev[j];
      }
    }
  }

  lemma {:induction false} NoPartNoRune(s: seq<Rune>, i: nat)
    requires i < |s|
    ensures !Glob([], s[..i + 1])
  {
    assert s[..i + 1] != [];
  }

  /** The two-row table, its rows swapped after each rune. */
  method TableMatch(p: seq<Rune>, s: seq<Rune>) returns (matched: bool)
    ensures matched <==> Glob(p, s)
  {
    hide Glob;
    var prev := FirstRow(p);
    var curr := new bool[|p| + 1](_ => false);
    assert s[..0] == [];
    for i := 0 to |s|
      invariant prev != curr && prev.Length == |p| + 1 && curr.Length == |p| + 1
      invariant fresh(prev) && fresh(curr)
      invariant IsRow(prev[..], p, s, i)
    {
      NextRow(p, s, i, s[i], prev, curr);
      prev, curr := curr, prev;
    }
    assert p[..|p|] == p && s[..|s|] == s;
    assert prev[..][|p|] == prev[|p|];
    matched := prev[|p|];
  }

  /** The search on a name already folded. */
  method Matches(p: NamePattern, name: seq<Rune>) returns (matched: bool)
    requires Parsed(p)
    ensures matched <==> Meant(p.query, name)
  {
    hide Glob, Literals;
    if p.query == [] { return false; }
    if !p.wildcard {
      matched := Contains(EncodeAll(name), EncodeAll(p.query));
      ByteSearchIsRuneSearch(name, p.query);
      return;
    }
    if Glob(p.query, name) { PrefilterKeepsMatches(p.query, name); }
    for k := 0 to |p.literals| {
      var found := Contains(EncodeAll(name), EncodeAll(p.literals[k]));
      LiteralsAreNotEmpty(p.query, k);
      ByteSearchIsRuneSearch(name, p.literals[k]);
      if !found { return false; }
    }
    matched := TableMatch(p.query, name);
  }

  lemma {:induction false} LiteralsAreNotEmpty(p: seq<Rune>, k: nat)
    requires k < |Literals(p)|
    ensures Literals(p)[k] != []
  {
  }

  /** The library's byte search. */
  method Contains(text: seq<Byte>, part: seq<Byte>) returns (found: bool)
    ensures found <==> Occurs(text, part)
  {
    var at := 0;
    while at + |part| <= |text|
      invariant 0 <= at
      invariant forall k: nat :: k < at ==> !Begins(text, part, k)
    {
      if text[at..at + |part|] == part {
        OccursIn(text, part, at);
        return true;
      }
      at := at + 1;
    }
    found := false;
  }

  /** The search a user types: it finds exactly the names the folded query means, whatever case they are written in. */
  method MatchesRaw(query: seq<Rune>, name: seq<Rune>) returns (matched: bool)
    ensures matched <==> Meant(Fold(query), Fold(name))
  {
    hide Glob, Literals, Encode, EncodeAll;
    var p := ParseNamePattern(query);
    FoldKeepsWild(query);
    FoldingBytesFoldsRunes(name);
    if p.query == [] { return false; }
    if !p.wildcard {
      matched := ContainsInsensitive(EncodeAll(name), EncodeAll(p.query));
      ByteSearchIsRuneSearch(Fold(name), p.query);
      return;
    }
    if Glob(p.query, Fold(name)) { PrefilterKeepsMatches(p.query, Fold(name)); }
    for k := 0 to |p.literals| {
      var found := ContainsInsensitive(EncodeAll(name), EncodeAll(p.literals[k]));
      LiteralsAreNotEmpty(p.query, k);
      ByteSearchIsRuneSearch(Fold(name), p.literals[k]);
      if !found { return false; }
    }
    matched := Matches(p, Fold(name));
  }
}

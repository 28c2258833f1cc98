/**
 The Base64 codec of the sync messages, against section 4 of RFC 4648.

 Text is a sequence of bytes, as the decoder reads it. The meaning of both directions is given by
 bit strings: the encoder writes the bits of the data, filled up with zeros to whole sextets; the
 decoder reads the sextets' bits back, dropping what does not fill a byte. Shifts and masks are
 written as multiplication, division and remainder by powers of two.
 */
module Base64 {
  import opened Basics

  type Sextet = n: nat | n < 64

  const PAD: Byte := 61 // '='

  // ---------------------------------------------------------------- the two tables

  // The decoder's table, in rows of sixteen.
  const NONE_16 := [-1, -1, -1, -1, -1, -1, -1, -1, -1, -1, -1, -1, -1, -1, -1, -1]
  const FROM_32 := [-1, -1, -1, -1, -1, -1, -1, -1, -1, -1, -1, 62, -1, -1, -1, 63]
  const FROM_48 := [52, 53, 54, 55, 56, 57, 58, 59, 60, 61, -1, -1, -1, -1, -1, -1]
  const FROM_64 := [-1, 0, 1, 2, 3, 4, 5, 6, 7, 8, 9, 10, 11, 12, 13, 14]
  const FROM_80 := [15, 16, 17, 18, 19, 20, 21, 22, 23, 24, 25, -1, -1, -1, -1, -1]
  const FROM_96 := [-1, 26, 27, 28, 29, 30, 31, 32, 33, 34, 35, 36, 37, 38, 39, 40]
  const FROM_112 := [41, 42, 43, 44, 45, 46, 47, 48, 49, 50, 51, -1, -1, -1, -1, -1]

  const DECODE_ROWS := [NONE_16, NONE_16, FROM_32, FROM_48, FROM_64, FROM_80, FROM_96, FROM_112]

  /** The value of a character below 128, or -1. */
  function DecodeTable(c: nat): int
    requires c < 128
  {
    DECODE_ROWS[c / 16][c % 16]
  }

  const UPPER: seq<Byte> := [65, 66, 67, 68, 69, 70, 71, 72, 73, 74, 75, 76, 77, 78, 79, 80, 81, 82, 83, 84, 85, 86,
                             87, 88, 89, 90]
  const LOWER: seq<Byte> := [97, 98, 99, 100, 101, 102, 103, 104, 105, 106, 107, 108, 109,
                             110, 111, 112, 113, 114, 115, 116, 117, 118, 119, 120, 121, 122]
  const DIGITS: seq<Byte> := [48, 49, 50, 51, 52, 53, 54, 55, 56, 57, 43, 47]

  /** The alphabet: A-Z, a-z, 0-9, + and /. */
  const B64_CHARS: seq<Byte> := UPPER + LOWER + DIGITS

  /** The alphabet of section 4 in closed form: the value of a character, or -1. */
  function Value(c: nat): (v: int)
    ensures -1 <= v < 64
  {
    if c == 43 then 62 else if c == 47 then 63
    else if 48 <= c < 58 then c + 4 else if 65 <= c < 91 then c - 65 else if 97 <= c < 123 then c - 71 else -1
  }

  function Char(v: Sextet): (c: Byte)
    ensures c < 128
  {
    if v < 26 then v + 65 else if v < 52 then v + 71 else if v < 62 then v - 4 else if v == 62 then 43 else 47
  }

  lemma TableMeans(c: nat)
    requires c < 128
    ensures DecodeTable(c) == Value(c)
  {
    var r := c / 16;
    assert c == 16 * r + c % 16 && r < 8;
    assert r == 0 || r == 1 || r == 2 || r == 3 || r == 4 || r == 5 || r == 6 || r == 7;
  }

  lemma LetterAt(v: nat)
    requires v < 64
    ensures |B64_CHARS| == 64 && B64_CHARS[v] == Char(v)
  {
  }

  method Lookup(c: Byte) returns (val: int)
    requires c < 128
    ensures val == Value(c)
  {
    TableMeans(c);
    val := DecodeTable(c);
  }

  method Pick(v: Sextet) returns (c: Byte)
    ensures c == Char(v)
  {
    LetterAt(v);
    c := B64_CHARS[v];
  }

  /** The decoder's table and the encoder's alphabet are inverse, and the padding is in neither. */
  lemma TablesInvert()
    ensures forall v: Sextet :: |B64_CHARS| == 64 && B64_CHARS[v] == Char(v) && DecodeTable(Char(v)) == v
    ensures forall c: Byte :: c < 128 && 0 <= DecodeTable(c) ==> DecodeTable(c) < 64 && Char(DecodeTable(c)) == c
    ensures DecodeTable(PAD) == -1
  {
    forall v: Sextet ensures |B64_CHARS| == 64 && B64_CHARS[v] == Char(v) && DecodeTable(Char(v)) == v {
      LetterAt(v);
      TableMeans(Char(v));
    }
    forall c: Byte | c < 128 && 0 <= DecodeTable(c) ensures DecodeTable(c) < 64 && Char(DecodeTable(c)) == c {
      TableMeans(c);
    }
    TableMeans(PAD);
  }

  // ---------------------------------------------------------------- bit strings

  function Pow2(k: nat): (r: nat)
    ensures r > 0
  {
    if k == 0 then 1 else 2 * Pow2(k - 1)
  }

  /** The low `w` bits of `v`, most significant first. */
  function Bits(v: nat, w: nat): (r: seq<bool>)
    ensures |r| == w
  {
    if w == 0 then [] else Bits(v / 2, w - 1) + [v % 2 == 1]
  }

  /** The bits of all values, `w` each. */
  function Stream(vs: seq<nat>, w: nat): seq<bool> {
    if vs == [] then [] else Stream(vs[..|vs| - 1], w) + Bits(vs[|vs| - 1], w)
  }

  function Zeros(n: nat): seq<bool> { seq(n, _ => false) }

  lemma {:induction false} BitsSplit(hi: nat, lo: nat, w: nat, k: nat)
    requires lo < Pow2(k)
    ensures Bits(hi * Pow2(k) + lo, w + k) == Bits(hi, w) + Bits(lo, k)
  {
    if k == 0 {
      assert hi * Pow2(0) + lo == hi;
    } else {
      var v := hi * Pow2(k) + lo;
      assert v == 2 * (hi * Pow2(k - 1)) + lo;
      assert v / 2 == hi * Pow2(k - 1) + lo / 2 && v % 2 == lo % 2;
      BitsSplit(hi, lo / 2, w, k - 1);
    }
  }

  lemma {:induction false} BitsOfZero(w: nat)
    ensures Bits(0, w) == Zeros(w)
  {
    if w > 0 { BitsOfZero(w - 1); }
  }

  lemma {:induction false} BitsInjective(a: nat, b: nat, w: nat)
    requires a < Pow2(w) && b < Pow2(w) && Bits(a, w) == Bits(b, w)
    ensures a == b
  {
    if w > 0 {
      var x, y := Bits(a, w), Bits(b, w);
      assert x[..w - 1] == Bits(a / 2, w - 1) && x[w - 1] == (a % 2 == 1);
      assert y[..w - 1] == Bits(b / 2, w - 1) && y[w - 1] == (b % 2 == 1);
      BitsInjective(a / 2, b / 2, w - 1);
    }
  }

  lemma StreamPush(vs: seq<nat>, v: nat, w: nat)
    ensures Stream(vs + [v], w) == Stream(vs, w) + Bits(v, w)
  {
    assert (vs + [v])[..|vs|] == vs;
  }

  lemma {:induction false} StreamAppend(a: seq<nat>, b: seq<nat>, w: nat)
    ensures Stream(a + b, w) == Stream(a, w) + Stream(b, w)
  {
    if b == [] {
      assert a + b == a;
    } else {
      var init, last := b[..|b| - 1], b[|b| - 1];
      StreamAppend(a, init, w);
      StreamPush(a + init, last, w);
      Associate(a, init, [last]);
      Associate(Stream(a, w), Stream(init, w), Bits(last, w));
      assert b == init + [last];
    }
  }

  lemma {:induction false} StreamLength(vs: seq<nat>, w: nat)
    ensures |Stream(vs, w)| == |vs| * w
  {
    if vs != [] {
      StreamLength(vs[..|vs| - 1], w);
      assert |vs| * w == (|vs| - 1) * w + w;
    }
  }

  lemma SameEnds<T>(a: seq<T>, x: seq<T>, b: seq<T>, y: seq<T>)
    requires a + x == b + y && |x| == |y|
    ensures a == b && x == y
  {
    assert a == (a + x)[..|a|] && b == (b + y)[..|b|];
    assert x == (a + x)[|a|..] && y == (b + y)[|b|..];
  }

  lemma {:induction false} StreamInjective(a: seq<nat>, b: seq<nat>, w: nat)
    requires |a| == |b| && Stream(a, w) == Stream(b, w)
    requires forall k :: 0 <= k < |a| ==> a[k] < Pow2(w) && b[k] < Pow2(w)
    ensures a == b
  {
    if a != [] {
      var n := |a| - 1;
      SameEnds(Stream(a[..n], w), Bits(a[n], w), Stream(b[..n], w), Bits(b[n], w));
      StreamInjective(a[..n], b[..n], w);
      BitsInjective(a[n], b[n], w);
      assert a == a[..n] + [a[n]] && b == b[..n] + [b[n]];
    }
  }

  lemma SmallPowers()
    ensures Pow2(0) == 1 && Pow2(2) == 4 && Pow2(4) == 16 && Pow2(6) == 64 && Pow2(8) == 256
  {
    assert Pow2(2) == 2 * Pow2(1) && Pow2(4) == 2 * Pow2(3) && Pow2(6) == 2 * Pow2(5) && Pow2(8) == 2 * Pow2(7);
  }

  // ---------------------------------------------------------------- encoding

  function Chars(vals: seq<Sextet>): seq<Byte> { seq(|vals|, i requires 0 <= i < |vals| => Char(vals[i])) }
  function Pads(n: nat): seq<Byte> { seq(n, _ => PAD) }

  /**
   The sextets spell the bits of the data filled up with fewer than six zeros; at most two pads
   complete the last quad.
   */
  ghost predicate EncodedAs(data: seq<Byte>, text: seq<Byte>, vals: seq<Sextet>, pads: nat) {
    && pads <= 2 && text == Chars(vals) + Pads(pads)
    && |text| == 4 * ((|data| + 2) / 3)
    && 0 <= 6 * |vals| - 8 * |data| < 6
    && Stream(vals, 6) == Stream(data, 8) + Zeros(6 * |vals| - 8 * |data|)
  }

  ghost predicate IsEncoding(data: seq<Byte>, text: seq<Byte>) {
    exists vals: seq<Sextet>, pads: nat :: EncodedAs(data, text, vals, pads)
  }

  /** Each data has one encoding. */
  lemma EncodingUnique(data: seq<Byte>, text: seq<Byte>, text': seq<Byte>)
    requires IsEncoding(data, text) && IsEncoding(data, text')
    ensures text == text'
  {
    var vals: seq<Sextet>, pads: nat :| EncodedAs(data, text, vals, pads);
    var vals': seq<Sextet>, pads': nat :| EncodedAs(data, text', vals', pads');
    SmallPowers();
    assert |vals| == |vals'|;
    StreamInjective(vals, vals', 6);
    assert pads == |text| - |vals| == pads';
  }

  lemma {:induction false} ZerosBefore(a: seq<nat>, b: seq<nat>, zeros: nat)
    ensures Stream(a, 8) + Zeros(0) + (Stream(b, 8) + Zeros(zeros)) == Stream(a + b, 8) + Zeros(zeros)
  {
    StreamAppend(a, b, 8);
    assert Zeros(0) == [];
  }

  lemma AppendedStream(a: seq<Byte>, vals: seq<Sextet>, b: seq<Byte>, vals': seq<Sextet>, zeros: nat)
    requires Stream(vals, 6) == Stream(a, 8) + Zeros(0) && Stream(vals', 6) == Stream(b, 8) + Zeros(zeros)
    ensures Stream(vals + vals', 6) == Stream(a + b, 8) + Zeros(zeros)
  {
    StreamAppend(vals, vals', 6);
    ZerosBefore(a, b, zeros);
  }

  lemma AppendedLength(n: nat, m: nat)
    requires n % 3 == 0
    ensures 4 * ((n + 2) / 3) + 4 * ((m + 2) / 3) == 4 * ((n + m + 2) / 3) && 4 * ((n + 2) / 3) * 6 == 8 * n
  {
  }

  lemma AppendedText(t: seq<Byte>, vals: seq<Sextet>, u: seq<Byte>, vals': seq<Sextet>, pads: nat)
    requires t == Chars(vals) + Pads(0) && u == Chars(vals') + Pads(pads)
    ensures t + u == Chars(vals + vals') + Pads(pads)
  {
    assert Chars(vals) + Chars(vals') == Chars(vals + vals');
    Associate(Chars(vals), Chars(vals'), Pads(pads));
  }

  lemma AppendedAs(a: seq<Byte>, t: seq<Byte>, vals: seq<Sextet>, b: seq<Byte>, u: seq<Byte>, vals': seq<Sextet>,
                   pads: nat)
    requires EncodedAs(a, t, vals, 0) && |a| % 3 == 0
    requires EncodedAs(b, u, vals', pads)
    ensures EncodedAs(a + b, t + u, vals + vals', pads)
  {
    var zeros: nat := 6 * |vals'| - 8 * |b|;
    assert 6 * |vals| == 8 * |a| by { AppendedLength(|a|, 0); }
    assert |t + u| == 4 * ((|a + b| + 2) / 3) by { AppendedLength(|a|, |b|); }
    AppendedText(t, vals, u, vals', pads);
    AppendedStream(a, vals, b, vals', zeros);
  }

  lemma NoPads(a: seq<Byte>, t: seq<Byte>, vals: seq<Sextet>, pads: nat)
    requires EncodedAs(a, t, vals, pads) && |a| % 3 == 0
    ensures pads == 0
  {
    AppendedLength(|a|, 0);
  }

  /** Whole chunks encode independently of what follows. */
  lemma EncodingAppend(a: seq<Byte>, t: seq<Byte>, b: seq<Byte>, u: seq<Byte>)
    requires IsEncoding(a, t) && IsEncoding(b, u) && |a| % 3 == 0
    ensures IsEncoding(a + b, t + u)
  {
    var vals: seq<Sextet>, none: nat :| EncodedAs(a, t, vals, none);
    var vals': seq<Sextet>, pads: nat :| EncodedAs(b, u, vals', pads);
    NoPads(a, t, vals, none);
    AppendedAs(a, t, vals, b, u, vals', pads);
  }

  lemma SplitAfterSix(b: nat, hi: nat, lo: nat)
    requires b == hi * 4 + lo && lo < 4
    ensures Bits(b, 8) == Bits(hi, 6) + Bits(lo, 2)
  {
    assert Pow2(2) == 4 by { SmallPowers(); }
    Join(hi, lo, 6, 2, 4);
  }

  lemma SplitAfterFour(b: nat, hi: nat, lo: nat)
    requires b == hi * 16 + lo && lo < 16
    ensures Bits(b, 8) == Bits(hi, 4) + Bits(lo, 4)
  {
    assert Pow2(4) == 16 by { SmallPowers(); }
    Join(hi, lo, 4, 4, 16);
  }

  lemma SplitAfterTwo(b: nat, hi: nat, lo: nat)
    requires b == hi * 64 + lo && lo < 64
    ensures Bits(b, 8) == Bits(hi, 2) + Bits(lo, 6)
  {
    assert Pow2(6) == 64 by { SmallPowers(); }
    Join(hi, lo, 2, 6, 64);
  }

  lemma Join(hi: nat, lo: nat, w: nat, k: nat, p: nat)
    requires p == Pow2(k) && lo < p
    ensures Bits(hi * p + lo, w + k) == Bits(hi, w) + Bits(lo, k)
  {
    BitsSplit(hi, lo, w, k);
  }

  lemma JoinLong(hi: nat, lo: nat)
    requires lo < 16
    ensures Bits(hi * 16 + lo, 6) == Bits(hi, 2) + Bits(lo, 4)
  {
    assert Pow2(4) == 16 by { SmallPowers(); }
    Join(hi, lo, 2, 4, 16);
  }

  lemma JoinShort(hi: nat, lo: nat)
    requires lo < 4
    ensures Bits(hi * 4 + lo, 6) == Bits(hi, 4) + Bits(lo, 2)
  {
    assert Pow2(2) == 4 by { SmallPowers(); }
    Join(hi, lo, 4, 2, 4);
  }

  lemma FirstTwo(b0: nat, v0: nat, low: nat, high: nat)
    requires Bits(b0, 8) == Bits(v0, 6) + Bits(low, 2) && high < 16
    ensures Bits(v0, 6) + Bits(low * 16 + high, 6) == Bits(b0, 8) + Bits(high, 4)
  {
    JoinLong(low, high);
    Associate(Bits(v0, 6), Bits(low, 2), Bits(high, 4));
  }

  lemma LastTwo(low: nat, b2: nat, top: nat, v3: nat)
    requires Bits(b2, 8) == Bits(top, 2) + Bits(v3, 6) && top < 4
    ensures Bits(low * 4 + top, 6) + Bits(v3, 6) == Bits(low, 4) + Bits(b2, 8)
  {
    JoinShort(low, top);
    Associate(Bits(low, 4), Bits(top, 2), Bits(v3, 6));
  }

  lemma RegroupQuad<T>(s0: seq<T>, s1: seq<T>, x: seq<T>, y: seq<T>, s2: seq<T>, s3: seq<T>, b0: seq<T>, b2: seq<T>)
    requires s0 + s1 == b0 + x && s2 + s3 == y + b2
    ensures s0 + s1 + s2 + s3 == b0 + (x + y) + b2
  {
    assert s0 + s1 + s2 + s3 == (s0 + s1) + (s2 + s3);
    assert (b0 + x) + (y + b2) == b0 + (x + y) + b2;
  }

  /** The four sextets of three bytes. */
  lemma QuadBits(b0: nat, v0: nat, l0: nat, b1: nat, h1: nat, l1: nat, b2: nat, h2: nat, v3: nat)
    requires Bits(b0, 8) == Bits(v0, 6) + Bits(l0, 2)
    requires Bits(b1, 8) == Bits(h1, 4) + Bits(l1, 4) && h1 < 16
    requires Bits(b2, 8) == Bits(h2, 2) + Bits(v3, 6) && h2 < 4
    ensures Bits(v0, 6) + Bits(l0 * 16 + h1, 6) + Bits(l1 * 4 + h2, 6) + Bits(v3, 6)
            == Bits(b0, 8) + Bits(b1, 8) + Bits(b2, 8)
  {
    FirstTwo(b0, v0, l0, h1);
    LastTwo(l1, b2, h2, v3);
    RegroupQuad(Bits(v0, 6), Bits(l0 * 16 + h1, 6), Bits(h1, 4), Bits(l1, 4), Bits(l1 * 4 + h2, 6), Bits(v3, 6),
                Bits(b0, 8), Bits(b2, 8));
  }

  lemma ThreeBits(b0: nat, b1: nat, b2: nat, w: nat)
    ensures Stream([b0], w) == Bits(b0, w)
    ensures Stream([b0, b1], w) == Bits(b0, w) + Bits(b1, w)
    ensures Stream([b0, b1, b2], w) == Bits(b0, w) + Bits(b1, w) + Bits(b2, w)
  {
    assert [b0, b1, b2][..2] == [b0, b1] && [b0, b1][..1] == [b0] && [b0][..0] == [];
  }

  lemma FourBits(v0: nat, v1: nat, v2: nat, v3: nat, w: nat)
    ensures Stream([v0, v1, v2, v3], w) == Bits(v0, w) + Bits(v1, w) + Bits(v2, w) + Bits(v3, w)
  {
    ThreeBits(v0, v1, v2, w);
    assert [v0, v1, v2, v3][..3] == [v0, v1, v2];
  }

  lemma CharsOfFour(v0: Sextet, v1: Sextet, v2: Sextet, v3: Sextet)
    ensures Chars([v0, v1, v2, v3]) + Pads(0) == [Char(v0), Char(v1), Char(v2), Char(v3)]
    ensures Chars([v0, v1, v2]) + Pads(1) == [Char(v0), Char(v1), Char(v2), PAD]
    ensures Chars([v0, v1]) + Pads(2) == [Char(v0), Char(v1), PAD, PAD]
  {
  }

  lemma FullStream(v0: nat, v1: nat, v2: nat, v3: nat, b0: nat, b1: nat, b2: nat)
    requires Bits(v0, 6) + Bits(v1, 6) + Bits(v2, 6) + Bits(v3, 6) == Bits(b0, 8) + Bits(b1, 8) + Bits(b2, 8)
    ensures Stream([v0, v1, v2, v3], 6) == Stream([b0, b1, b2], 8) + Zeros(0)
  {
    FourBits(v0, v1, v2, v3, 6);
    ThreeBits(b0, b1, b2, 8);
    assert Zeros(0) == [];
  }

  /** At most three bytes make one quad. */
  lemma ChunkEncodes(data: seq<Byte>, text: seq<Byte>, vals: seq<Sextet>, pads: nat, zeros: nat)
    requires 1 <= |data| <= 3 && |text| == 4 && pads <= 2 && text == Chars(vals) + Pads(pads)
    requires 6 * |vals| == 8 * |data| + zeros && zeros < 6 && Stream(vals, 6) == Stream(data, 8) + Zeros(zeros)
    ensures EncodedAs(data, text, vals, pads)
  {
    OneQuad(|data|);
    assert 6 * |vals| - 8 * |data| == zeros;
  }

  lemma OneQuad(n: nat)
    requires 1 <= n <= 3
    ensures 4 * ((n + 2) / 3) == 4
  {
  }

  lemma FullChunk(v0: Sextet, v1: Sextet, v2: Sextet, v3: Sextet, b0: Byte, b1: Byte, b2: Byte)
    requires Bits(v0, 6) + Bits(v1, 6) + Bits(v2, 6) + Bits(v3, 6) == Bits(b0, 8) + Bits(b1, 8) + Bits(b2, 8)
    ensures EncodedAs([b0, b1, b2], [Char(v0), Char(v1), Char(v2), Char(v3)], [v0, v1, v2, v3], 0)
  {
    FullStream(v0, v1, v2, v3, b0, b1, b2);
    CharsOfFour(v0, v1, v2, v3);
    ChunkEncodes([b0, b1, b2], [Char(v0), Char(v1), Char(v2), Char(v3)], [v0, v1, v2, v3], 0, 0);
  }

  lemma PaddedSextet(v: nat)
    ensures Bits(v * 4, 6) == Bits(v, 4) + Zeros(2)
  {
    JoinShort(v, 0);
    BitsOfZero(2);
  }

  /** Two bytes: the third sextet ends in two zero bits. */
  lemma TripleBits(b0: nat, v0: nat, l0: nat, b1: nat, h1: nat, l1: nat)
    requires Bits(b0, 8) == Bits(v0, 6) + Bits(l0, 2)
    requires Bits(b1, 8) == Bits(h1, 4) + Bits(l1, 4) && h1 < 16
    ensures Bits(v0, 6) + Bits(l0 * 16 + h1, 6) + Bits(l1 * 4, 6) == Bits(b0, 8) + Bits(b1, 8) + Zeros(2)
  {
    PaddedSextet(l1);
    FirstTwo(b0, v0, l0, h1);
    RegroupQuad(Bits(v0, 6), Bits(l0 * 16 + h1, 6), Bits(h1, 4), Bits(l1, 4), Bits(l1 * 4, 6), [], Bits(b0, 8),
                Zeros(2));
  }

  /** One byte: the second sextet ends in four zero bits. */
  lemma PairBits(b0: nat, v0: nat, l0: nat)
    requires Bits(b0, 8) == Bits(v0, 6) + Bits(l0, 2)
    ensures Bits(v0, 6) + Bits(l0 * 16, 6) == Bits(b0, 8) + Zeros(4)
  {
    JoinLong(l0, 0);
    BitsOfZero(4);
    Associate(Bits(v0, 6), Bits(l0, 2), Zeros(4));
  }

  lemma TwoChunk(v0: Sextet, v1: Sextet, v2: Sextet, b0: Byte, b1: Byte)
    requires Bits(v0, 6) + Bits(v1, 6) + Bits(v2, 6) == Bits(b0, 8) + Bits(b1, 8) + Zeros(2)
    ensures EncodedAs([b0, b1], [Char(v0), Char(v1), Char(v2), PAD], [v0, v1, v2], 1)
  {
    ThreeBits(v0, v1, v2, 6);
    ThreeBits(b0, b1, 0, 8);
    CharsOfFour(v0, v1, v2, 0);
  }

  lemma OneChunk(v0: Sextet, v1: Sextet, b0: Byte)
    requires Bits(v0, 6) + Bits(v1, 6) == Bits(b0, 8) + Zeros(4)
    ensures EncodedAs([b0], [Char(v0), Char(v1), PAD, PAD], [v0, v1], 2)
  {
    ThreeBits(v0, v1, 0, 6);
    ThreeBits(b0, 0, 0, 8);
    CharsOfFour(v0, v1, 0, 0);
  }

  /** One chunk of at most three bytes becomes four characters. */
  method EncodeChunk(chunk: seq<Byte>) returns (quad: seq<Byte>)
    requires 1 <= |chunk| <= 3
    ensures IsEncoding(chunk, quad)
  {
    var b0 := chunk[0];
    var b1: Byte := if |chunk| > 1 then chunk[1] else 0;
    var b2: Byte := if |chunk| > 2 then chunk[2] else 0;
    var c0 := Pick(b0 / 4);
    var c1 := Pick(b0 % 4 * 16 + b1 / 16);
    var c2, c3 := PAD, PAD;
    if |chunk| > 1 {
      c2 := Pick(b1 % 16 * 4 + b2 / 64);
    }
    if |chunk| > 2 {
      c3 := Pick(b2 % 64);
    }
    quad := [c0, c1, c2, c3];
    QuadEncodes(chunk, quad);
  }

  lemma QuadEncodes(chunk: seq<Byte>, quad: seq<Byte>)
    requires 1 <= |chunk| <= 3 && |quad| == 4
    requires var b1: Byte := if |chunk| > 1 then chunk[1] else 0;
             var b2: Byte := if |chunk| > 2 then chunk[2] else 0;
             && quad[0] == Char(chunk[0] / 4) && quad[1] == Char(chunk[0] % 4 * 16 + b1 / 16)
             && quad[2] == (if |chunk| > 1 then Char(b1 % 16 * 4 + b2 / 64) else PAD)
             && quad[3] == (if |chunk| > 2 then Char(b2 % 64) else PAD)
    ensures IsEncoding(chunk, quad)
  {
    var b0 := chunk[0];
    if |chunk| == 3 {
      var b1, b2 := chunk[1], chunk[2];
      QuadOfThree(b0, b0 / 4, b0 % 4, b1, b1 / 16, b1 % 16, b2, b2 / 64, b2 % 64);
      assert chunk == [b0, b1, b2];
    } else if |chunk| == 2 {
      var b1 := chunk[1];
      QuadOfTwo(b0, b0 / 4, b0 % 4, b1, b1 / 16, b1 % 16);
      assert chunk == [b0, b1];
    } else {
      QuadOfOne(b0, b0 / 4, b0 % 4);
      assert chunk == [b0];
    }
    assert quad == [quad[0], quad[1], quad[2], quad[3]];
  }

  lemma QuadOfThree(b0: Byte, v0: nat, l0: nat, b1: Byte, h1: nat, l1: nat, b2: Byte, h2: nat, v3: nat)
    requires b0 == v0 * 4 + l0 && l0 < 4 && b1 == h1 * 16 + l1 && l1 < 16 && b2 == h2 * 64 + v3 && v3 < 64
    ensures v0 < 64 && h1 < 16 && h2 < 4
    ensures IsEncoding([b0, b1, b2], [Char(v0), Char(l0 * 16 + h1), Char(l1 * 4 + h2), Char(v3)])
  {
    SplitAfterSix(b0, v0, l0);
    SplitAfterFour(b1, h1, l1);
    SplitAfterTwo(b2, h2, v3);
    QuadBits(b0, v0, l0, b1, h1, l1, b2, h2, v3);
    FullChunk(v0, l0 * 16 + h1, l1 * 4 + h2, v3, b0, b1, b2);
  }

  lemma QuadOfTwo(b0: Byte, v0: nat, l0: nat, b1: Byte, h1: nat, l1: nat)
    requires b0 == v0 * 4 + l0 && l0 < 4 && b1 == h1 * 16 + l1 && l1 < 16
    ensures v0 < 64 && h1 < 16
    ensures IsEncoding([b0, b1], [Char(v0), Char(l0 * 16 + h1), Char(l1 * 4), PAD])
  {
    SplitAfterSix(b0, v0, l0);
    SplitAfterFour(b1, h1, l1);
    TripleBits(b0, v0, l0, b1, h1, l1);
    TwoChunk(v0, l0 * 16 + h1, l1 * 4, b0, b1);
  }

  lemma QuadOfOne(b0: Byte, v0: nat, l0: nat)
    requires b0 == v0 * 4 + l0 && l0 < 4
    ensures v0 < 64 && IsEncoding([b0], [Char(v0), Char(l0 * 16), PAD, PAD])
  {
    SplitAfterSix(b0, v0, l0);
    PairBits(b0, v0, l0);
    OneChunk(v0, l0 * 16, b0);
  }

  ghost predicate EncodesPrefix(data: seq<Byte>, i: nat, text: seq<Byte>) {
    i <= |data| && (i % 3 == 0 || i == |data|) && IsEncoding(data[..i], text)
  }

  lemma EncodeAll(data: seq<Byte>, text: seq<Byte>)
    requires EncodesPrefix(data, |data|, text)
    ensures IsEncoding(data, text)
  {
    assert data[..|data|] == data;
  }

  lemma ChunkEnds(i: nat, n: nat)
    requires i % 3 == 0
    ensures i + 3 <= n ==> (i + 3) % 3 == 0
  {
  }

  lemma EncodeStep(data: seq<Byte>, i: nat, end: nat, text: seq<Byte>, quad: seq<Byte>)
    requires i < |data| && end == (if i + 3 <= |data| then i + 3 else |data|)
    requires EncodesPrefix(data, i, text) && IsEncoding(data[i..end], quad)
    ensures EncodesPrefix(data, end, text + quad)
  {
    EncodingAppend(data[..i], text, data[i..end], quad);
    assert data[..i] + data[i..end] == data[..end];
    ChunkEnds(i, |data|);
  }

  lemma EncodeNothing(data: seq<Byte>)
    ensures EncodesPrefix(data, 0, [])
  {
    assert EncodedAs(data[..0], [], [], 0);
  }

  method Encode(data: seq<Byte>) returns (text: seq<Byte>)
    ensures IsEncoding(data, text)
  {
    text := [];
    var i := 0;
    EncodeNothing(data);
    while i < |data|
      invariant 0 <= i <= |data| && EncodesPrefix(data, i, text)
    {
      var end := if i + 3 <= |data| then i + 3 else |data|;
      var quad := EncodeChunk(data[i..end]);
      EncodeStep(data, i, end, text, quad);
      text, i := text + quad, end;
    }
    EncodeAll(data, text);
  }

  // ---------------------------------------------------------------- decoding

  function Trimmed(text: seq<Byte>): seq<Byte> {
    if text != [] && text[|text| - 1] == PAD then Trimmed(text[..|text| - 1]) else text
  }

  predicate InAlphabet(text: seq<Byte>) { forall k :: 0 <= k < |text| ==> 0 <= Value(text[k]) }

  function Values(text: seq<Byte>): (vals: seq<Sextet>)
    requires InAlphabet(text)
  {
    seq(|text|, i requires 0 <= i < |text| => Value(text[i]))
  }

  ghost predicate DecodedAs(vals: seq<Sextet>, data: seq<Byte>, rest: seq<bool>) {
    |rest| < 8 && Stream(vals, 6) == Stream(data, 8) + rest
  }

  /** Trailing pads are ignored; any other foreign character fails; the whole bytes of the sextets are the data. */
  ghost predicate IsDecoding(text: seq<Byte>, r: Option<seq<Byte>>) {
    match r
    case None => !InAlphabet(Trimmed(text))
    case Some(data) => InAlphabet(Trimmed(text)) && exists rest :: DecodedAs(Values(Trimmed(text)), data, rest)
  }

  /** Shift one sextet in and a whole byte out: the bits stay in order, and the accumulator stays below 2^bits. */
  method PushSextet(buf: nat, bits: nat, val: Sextet) returns (buf': nat, bits': nat, out: seq<Byte>)
    requires bits < 8 && buf < Pow2(bits)
    ensures bits' < 8 && buf' < Pow2(bits')
    ensures buf * 64 + val < 0x1_0000_0000 // the 32-bit accumulator never overflows
    ensures Bits(buf, bits) + Bits(val, 6) == Stream(out, 8) + Bits(buf', bits')
  {
    ShiftIn(buf, bits, val);
    PowersGrow(bits, 7);
    buf', bits', out := buf * 64 + val, bits + 6, [];
    if bits' >= 8 {
      out, buf' := ShiftByteOut(buf', bits' - 8);
      bits' := bits' - 8;
    }
  }

  lemma {:induction false} PowersGrow(a: nat, b: nat)
    requires a <= b
    ensures Pow2(a) <= Pow2(b) && Pow2(7) == 128
  {
    assert Pow2(3) == 8 && Pow2(5) == 32;
    if a < b { PowersGrow(a, b - 1); }
  }

  method Quotient(buf: nat, bits: nat) returns (byte: Byte, low: nat)
    requires buf < Pow2(bits + 8)
    ensures buf == byte * Pow2(bits) + low && low < Pow2(bits)
  {
    SmallPowers();
    PowersMultiply(8, bits);
    var d := Pow2(bits);
    Divide(buf, d, 256);
    byte, low := buf / d, buf % d;
  }

  method ShiftByteOut(buf: nat, bits: nat) returns (out: seq<Byte>, buf': nat)
    requires buf < Pow2(bits + 8)
    ensures |out| == 1 && buf' < Pow2(bits)
    ensures Bits(buf, bits + 8) == Stream(out, 8) + Bits(buf', bits)
  {
    var byte, low := Quotient(buf, bits);
    ShiftOut(byte, low, bits);
    out, buf' := [byte], low;
  }

  lemma ShiftIn(buf: nat, bits: nat, val: Sextet)
    requires buf < Pow2(bits)
    ensures buf * 64 + val < Pow2(bits + 6) && Bits(buf * 64 + val, bits + 6) == Bits(buf, bits) + Bits(val, 6)
  {
    SmallPowers();
    BitsSplit(buf, val, bits, 6);
    PowersMultiply(bits, 6);
  }

  lemma ShiftOut(byte: Byte, low: nat, bits: nat)
    requires low < Pow2(bits)
    ensures Bits(byte * Pow2(bits) + low, bits + 8) == Stream([byte], 8) + Bits(low, bits)
  {
    BitsSplit(byte, low, 8, bits);
  }

  lemma {:induction false} PowersMultiply(a: nat, b: nat)
    ensures Pow2(a + b) == Pow2(a) * Pow2(b)
  {
    if b > 0 { PowersMultiply(a, b - 1); }
  }

  lemma Divide(n: nat, d: nat, q: nat)
    requires d > 0 && n < q * d
    ensures n / d < q && n % d < d && n == (n / d) * d + n % d
  {
    var r := n % d;
    assert n == (n / d) * d + r;
    if n / d >= q { MulMonotone(q, n / d, d); }
  }

  method Decode(input: seq<Byte>) returns (r: Option<seq<Byte>>)
    ensures IsDecoding(input, r)
  {
    var text := Trimmed(input);
    var result: seq<Byte> := [];
    var buf: nat, bits: nat := 0, 0;
    for i := 0 to |text|
      invariant InAlphabet(text[..i])
      invariant bits < 8 && buf < Pow2(bits)
      invariant Stream(Values(text[..i]), 6) == Stream(result, 8) + Bits(buf, bits)
    {
      var c := text[i];
      if c >= 128 {
        assert Value(c) < 0;
        return None;
      }
      var val := Lookup(c);
      if val < 0 {
        return None;
      }
      var buf', bits', out := PushSextet(buf, bits, val);
      Absorb(text, i, result, Bits(buf, bits), out, Bits(buf', bits'));
      buf, bits, result := buf', bits', result + out;
    }
    assert text[..|text|] == text;
    assert DecodedAs(Values(text), result, Bits(buf, bits));
    return Some(result);
  }

  lemma ReadOne(text: seq<Byte>, i: nat)
    requires i < |text| && InAlphabet(text[..i]) && 0 <= Value(text[i])
    ensures InAlphabet(text[..i + 1])
    ensures Stream(Values(text[..i + 1]), 6) == Stream(Values(text[..i]), 6) + Bits(Value(text[i]), 6)
  {
    assert text[..i + 1] == text[..i] + [text[i]];
    assert Values(text[..i + 1])[..i] == Values(text[..i]);
  }

  /** The bits read so far are the bits delivered and the bits held, before and after one character. */
  lemma Absorb(text: seq<Byte>, i: nat, data: seq<Byte>, held: seq<bool>, out: seq<Byte>, held': seq<bool>)
    requires i < |text| && InAlphabet(text[..i]) && 0 <= Value(text[i])
    requires Stream(Values(text[..i]), 6) == Stream(data, 8) + held
    requires held + Bits(Value(text[i]), 6) == Stream(out, 8) + held'
    ensures InAlphabet(text[..i + 1]) && Stream(Values(text[..i + 1]), 6) == Stream(data + out, 8) + held'
  {
    var v := Value(text[i]);
    ReadOne(text, i);
    StreamAppend(data, out, 8);
    Reassociate(Stream(data, 8), held, Bits(v, 6), Stream(out, 8), held');
  }

  lemma Reassociate<T>(a: seq<T>, b: seq<T>, c: seq<T>, d: seq<T>, e: seq<T>)
    requires b + c == d + e
    ensures a + b + c == a + d + e
  {
    assert a + b + c == a + (b + c);
    assert a + d + e == a + (d + e);
  }

  /** Each text has one decoding. */
  lemma DecodingUnique(text: seq<Byte>, r: Option<seq<Byte>>, r': Option<seq<Byte>>)
    requires IsDecoding(text, r) && IsDecoding(text, r')
    ensures r == r'
  {
    if r.Some? && r'.Some? {
      var vals := Values(Trimmed(text));
      var rest :| DecodedAs(vals, r.value, rest);
      var rest' :| DecodedAs(vals, r'.value, rest');
      SamePrefix(r.value, rest, r'.value, rest');
    }
  }

  lemma SameCount(n: nat, x: nat, m: nat, y: nat, total: nat)
    requires x < 8 && y < 8 && 8 * n + x == total == 8 * m + y
    ensures n == m && x == y
  {
  }

  lemma SamePrefix(a: seq<Byte>, x: seq<bool>, b: seq<Byte>, y: seq<bool>)
    requires |x| < 8 && |y| < 8 && Stream(a, 8) + x == Stream(b, 8) + y
    ensures a == b && x == y
  {
    StreamLength(a, 8);
    StreamLength(b, 8);
    SameCount(|a|, |x|, |b|, |y|, |Stream(a, 8) + x|);
    SameEnds(Stream(a, 8), x, Stream(b, 8), y);
    SmallPowers();
    StreamInjective(a, b, 8);
  }

  // ---------------------------------------------------------------- the two together

  lemma {:induction false} TrimPads(body: seq<Byte>, n: nat)
    requires body != [] ==> body[|body| - 1] != PAD
    ensures Trimmed(body + Pads(n)) == body
  {
    var text := body + Pads(n);
    if n == 0 {
      assert text == body;
    } else {
      assert text[|text| - 1] == PAD && text[..|text| - 1] == body + Pads(n - 1);
      TrimPads(body, n - 1);
    }
  }

  lemma ReadBack(vals: seq<Sextet>, pads: nat)
    ensures Trimmed(Chars(vals) + Pads(pads)) == Chars(vals)
    ensures InAlphabet(Chars(vals)) && Values(Chars(vals)) == vals
  {
    TrimPads(Chars(vals), pads);
  }

  /** Decoding an encoding gives the data back. */
  lemma RoundTrip(data: seq<Byte>, text: seq<Byte>, r: Option<seq<Byte>>)
    requires IsEncoding(data, text) && IsDecoding(text, r)
    ensures r == Some(data)
  {
    var vals: seq<Sextet>, pads: nat :| EncodedAs(data, text, vals, pads);
    ReadBack(vals, pads);
    assert DecodedAs(vals, data, Zeros(6 * |vals| - 8 * |data|));
    assert IsDecoding(text, Some(data));
    DecodingUnique(text, r, Some(data));
  }

  /** Different data have different encodings. */
  lemma EncodingInjective(data: seq<Byte>, data': seq<Byte>, text: seq<Byte>)
    requires IsEncoding(data, text) && IsEncoding(data', text)
    ensures data == data'
  {
    var vals: seq<Sextet>, pads: nat :| EncodedAs(data, text, vals, pads);
    ReadBack(vals, pads);
    assert DecodedAs(vals, data, Zeros(6 * |vals| - 8 * |data|));
    RoundTrip(data', text, Some(data));
  }

  /** The bits after the last whole byte. */
  function Leftover(body: seq<Byte>): seq<bool>
    requires InAlphabet(body)
  {
    StreamLength(Values(body), 6);
    Stream(Values(body), 6)[6 * |body| / 8 * 8..]
  }

  /** What the decoder does not insist on: whole quads, at most two pads, and only zeros after the last byte. */
  predicate IsCanonical(text: seq<Byte>) {
    var body := Trimmed(text);
    && InAlphabet(body) && |text| % 4 == 0 && |text| - |body| <= 2
    && Leftover(body) == Zeros(|Leftover(body)|)
  }

  lemma LeftoverIsRest(body: seq<Byte>, data: seq<Byte>, rest: seq<bool>)
    requires InAlphabet(body) && DecodedAs(Values(body), data, rest)
    ensures Leftover(body) == rest && 6 * |body| == 8 * |data| + |rest|
  {
    var bits := Stream(Values(body), 6);
    assert bits == Stream(data, 8) + rest;
    StreamLength(Values(body), 6);
    StreamLength(data, 8);
    assert |bits| == 6 * |body| == 8 * |data| + |rest|;
    assert 6 * |body| / 8 == |data|;
    assert bits[8 * |data|..] == rest;
  }

  lemma {:induction false} TrimSplits(text: seq<Byte>)
    ensures |Trimmed(text)| <= |text| && text == Trimmed(text) + Pads(|text| - |Trimmed(text)|)
  {
    if text != [] && text[|text| - 1] == PAD {
      TrimSplits(text[..|text| - 1]);
    }
  }

  lemma CharsOfValues(body: seq<Byte>)
    requires InAlphabet(body)
    ensures Chars(Values(body)) == body
  {
  }

  lemma PadsFill(q: nat, m: nat, pads: nat, n: nat, k: nat)
    requires m + pads == 4 * q && pads <= 2 && k < 8 && 6 * m == 8 * n + k
    ensures k == 2 * pads && n + pads == 3 * q
  {
    assert 8 * (3 * q - n) == k + 6 * pads;
    if pads == 0 {
    } else if pads == 1 {
    } else {
    }
  }

  lemma CanonicalLengths(m: nat, pads: nat, n: nat, k: nat)
    requires (m + pads) % 4 == 0 && pads <= 2 && k < 8 && 6 * m == 8 * n + k
    ensures k < 6 && m + pads == 4 * ((n + 2) / 3)
  {
    var q := (m + pads) / 4;
    PadsFill(q, m, pads, n, k);
    assert n + 2 == 3 * q + (2 - pads);
  }

  /** A decoded text is the encoding of what was decoded exactly when it is canonical. */
  lemma ReencodesExactly(text: seq<Byte>, data: seq<Byte>)
    requires IsDecoding(text, Some(data))
    ensures IsEncoding(data, text) <==> IsCanonical(text)
  {
    if IsEncoding(data, text) { EncodingIsCanonical(text, data); }
    if IsCanonical(text) { CanonicalIsEncoding(text, data); }
  }

  lemma EncodingIsCanonical(text: seq<Byte>, data: seq<Byte>)
    requires IsEncoding(data, text)
    ensures IsCanonical(text)
  {
    var vals: seq<Sextet>, pads: nat :| EncodedAs(data, text, vals, pads);
    ReadBack(vals, pads);
    var body, zeros := Chars(vals), Zeros(6 * |vals| - 8 * |data|);
    assert Trimmed(text) == body;
    assert |text| - |body| == pads;
    WholeQuads(|data|);
    LeftoverIsRest(body, data, zeros);
    assert Leftover(body) == zeros;
  }

  lemma WholeQuads(n: nat)
    ensures 4 * ((n + 2) / 3) % 4 == 0
  {
    var q := (n + 2) / 3;
    assert 4 * q % 4 == 0;
  }

  lemma CanonicalIsEncoding(text: seq<Byte>, data: seq<Byte>)
    requires IsDecoding(text, Some(data)) && IsCanonical(text)
    ensures IsEncoding(data, text)
  {
    var body := Trimmed(text);
    var vals, pads := Values(body), |text| - |body|;
    var rest :| DecodedAs(vals, data, rest);
    TrimSplits(text);
    CharsOfValues(body);
    LeftoverIsRest(body, data, rest);
    CanonicalLengths(|body|, pads, |data|, |rest|);
    assert EncodedAs(data, text, vals, pads);
  }

  /** A text no encoder writes: a lone pad decodes, to nothing. */
  lemma LonePadDecodes()
    ensures IsDecoding([PAD], Some([])) && !IsCanonical([PAD]) && forall data :: !IsEncoding(data, [PAD])
  {
    assert [PAD][..0] == [];
    assert Trimmed([PAD]) == [];
    assert DecodedAs(Values([]), [], []);
    forall data ensures !IsEncoding(data, [PAD]) {
      if IsEncoding(data, [PAD]) { EncodingIsCanonical([PAD], data); }
    }
  }
}

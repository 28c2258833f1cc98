/**
 UTF-8 as sections 3 and 4 of RFC 3629 define it, character boundaries as Rust strings test them,
 and the text chunking of the mock AI provider.
 */
module Utf8 {
  import opened Basics

  predicate IsTail(b: Byte) { 0x80 <= b <= 0xBF }

  /** The length of the character a lead byte starts, 0 if it starts none. */
  function CharLen(lead: Byte): nat {
    if lead <= 0x7F then 1
    else if 0xC2 <= lead <= 0xDF then 2
    else if 0xE0 <= lead <= 0xEF then 3
    else if 0xF0 <= lead <= 0xF4 then 4
    else 0
  }

  /** The bytes of exactly one character. */
  predicate IsChar(c: seq<Byte>) {
    && c != [] && |c| == CharLen(c[0])
    && (forall i :: 0 < i < |c| ==> IsTail(c[i]))
    && (c[0] == 0xE0 ==> 0xA0 <= c[1])
    && (c[0] == 0xED ==> c[1] <= 0x9F)
    && (c[0] == 0xF0 ==> 0x90 <= c[1])
    && (c[0] == 0xF4 ==> c[1] <= 0x8F)
  }

  /** A concatenation of characters. */
  predicate Valid(s: seq<Byte>) {
    s == [] || (var n := CharLen(s[0]); 0 < n <= |s| && IsChar(s[..n]) && Valid(s[n..]))
  }

  /** The Unicode scalar values: the code points that are not surrogates. */
  type Scalar = u: nat | u < 0xD800 || 0xE000 <= u < 0x11_0000

  /** Section 3 of RFC 3629: a lead byte, then six bits a byte. */
  function EncodeChar(u: Scalar): (c: seq<Byte>)
    ensures 1 <= |c| <= 4
  {
    if u < 0x80 then [u]
    else if u < 0x800 then [0xC0 + u / 64, 0x80 + u % 64]
    else if u < 0x1_0000 then [0xE0 + u / 64 / 64, 0x80 + u / 64 % 64, 0x80 + u % 64]
    else [0xF0 + u / 64 / 64 / 64, 0x80 + u / 64 / 64 % 64, 0x80 + u / 64 % 64, 0x80 + u % 64]
  }

  function EncodeAll(us: seq<Scalar>): seq<Byte> {
    if us == [] then [] else EncodeChar(us[0]) + EncodeAll(us[1..])
  }

  lemma EncodedIsChar(u: Scalar)
    ensures IsChar(EncodeChar(u))
  {
  }

  /** The six bits of a following byte. */
  function Low(c: seq<Byte>, i: nat): (low: nat)
    requires IsChar(c) && 0 < i < |c|
    ensures low < 64 && c[i] == 0x80 + low
  {
    assert IsTail(c[i]);
    var b: int := c[i];
    b - 0x80
  }

  lemma SixBits(high: nat, low: nat)
    requires low < 64
    ensures (high * 64 + low) / 64 == high && (high * 64 + low) % 64 == low
  {
  }

  lemma TwoBytes(h: nat, x: nat) returns (u: Scalar)
    requires 2 <= h < 0x20 && x < 64
    ensures EncodeChar(u) == [0xC0 + h, 0x80 + x]
  {
    SixBits(h, x);
    u := h * 64 + x;
  }

  lemma ThreeBytes(h: nat, x: nat, y: nat) returns (u: Scalar)
    requires h < 0x10 && x < 64 && y < 64 && (h == 0 ==> 0x20 <= x) && (h == 0xD ==> x < 0x20)
    ensures EncodeChar(u) == [0xE0 + h, 0x80 + x, 0x80 + y]
  {
    SixBits(h, x);
    SixBits(h * 64 + x, y);
    u := (h * 64 + x) * 64 + y;
  }

  lemma FourBytes(h: nat, x: nat, y: nat, z: nat) returns (u: Scalar)
    requires h < 5 && x < 64 && y < 64 && z < 64 && (h == 0 ==> 0x10 <= x) && (h == 4 ==> x < 0x10)
    ensures EncodeChar(u) == [0xF0 + h, 0x80 + x, 0x80 + y, 0x80 + z]
  {
    SixBits(h, x);
    SixBits(h * 64 + x, y);
    SixBits((h * 64 + x) * 64 + y, z);
    u := ((h * 64 + x) * 64 + y) * 64 + z;
  }

  lemma CharDecodes(c: seq<Byte>) returns (u: Scalar)
    requires IsChar(c)
    ensures EncodeChar(u) == c
  {
    var lead: int := c[0];
    if |c| == 1 {
      u := lead;
    } else if |c| == 2 {
      u := TwoBytes(lead - 0xC0, Low(c, 1));
    } else if |c| == 3 {
      u := ThreeBytes(lead - 0xE0, Low(c, 1), Low(c, 2));
    } else {
      u := FourBytes(lead - 0xF0, Low(c, 1), Low(c, 2), Low(c, 3));
    }
  }

  /** The byte table of section 4 describes exactly the encodings of section 3. */
  lemma CharsAreScalars(c: seq<Byte>)
    ensures IsChar(c) <==> exists u: Scalar :: EncodeChar(u) == c
  {
    if IsChar(c) {
      var u := CharDecodes(c);
    }
    if u: Scalar :| EncodeChar(u) == c {
      EncodedIsChar(u);
    }
  }

  lemma {:induction false} EncodedIsValid(us: seq<Scalar>)
    ensures Valid(EncodeAll(us))
  {
    if us != [] {
      EncodedIsValid(us[1..]);
      EncodedIsChar(us[0]);
      CharThenValid(EncodeChar(us[0]), EncodeAll(us[1..]));
    }
  }

  lemma FirstChar(s: seq<Byte>) returns (n: nat)
    requires Valid(s) && s != []
    ensures 0 < n <= |s| && IsChar(s[..n]) && Valid(s[n..]) && s == s[..n] + s[n..]
  {
    n := CharLen(s[0]);
  }

  lemma EncodeOneMore(u: Scalar, rest: seq<Scalar>)
    ensures EncodeAll([u] + rest) == EncodeChar(u) + EncodeAll(rest)
  {
    assert ([u] + rest)[1..] == rest;
  }

  lemma {:induction false} ValidDecodes(s: seq<Byte>) returns (us: seq<Scalar>)
    requires Valid(s)
    ensures EncodeAll(us) == s
  {
    if s == [] {
      us := [];
    } else {
      var n := FirstChar(s);
      var u := CharDecodes(s[..n]);
      var rest := ValidDecodes(s[n..]);
      us := [u] + rest;
      EncodeOneMore(u, rest);
    }
  }

  /** The valid strings are exactly the encodings of sequences of scalar values. */
  lemma ValidExactly(s: seq<Byte>)
    ensures Valid(s) <==> exists us :: EncodeAll(us) == s
  {
    if Valid(s) {
      var us := ValidDecodes(s);
    }
    if us :| EncodeAll(us) == s {
      EncodedIsValid(us);
    }
  }

  /** `is_char_boundary`. */
  predicate IsBoundary(s: seq<Byte>, i: nat) {
    i == 0 || i == |s| || (i < |s| && !IsTail(s[i]))
  }

  lemma CutTwice(s: seq<Byte>, n: nat, i: nat)
    requires n <= i <= |s|
    ensures s[..i] == s[..n] + s[n..][..i - n] && s[i..] == s[n..][i - n..]
  {
  }

  lemma TakeFromRest(s: seq<Byte>, start: nat, end: nat)
    requires start <= end <= |s|
    ensures s[start..][..end - start] == s[start..end]
  {
  }

  lemma TakeMore(s: seq<Byte>, start: nat, end: nat)
    requires start <= end <= |s|
    ensures s[..start] + s[start..end] == s[..end]
  {
  }

  lemma CharThenValid(c: seq<Byte>, rest: seq<Byte>)
    requires IsChar(c) && Valid(rest)
    ensures Valid(c + rest)
  {
    assert (c + rest)[..|c|] == c && (c + rest)[|c|..] == rest;
  }

  /** No boundary lies inside the first character. */
  lemma BoundaryAfterFirst(s: seq<Byte>, n: nat, i: nat)
    requires n <= |s| && IsChar(s[..n]) && 0 < i <= |s| && IsBoundary(s, i)
    ensures n <= i && IsBoundary(s[n..], i - n)
  {
    assert forall k :: 0 < k < n ==> s[k] == s[..n][k];
  }

  /** Cutting at a boundary leaves two valid strings. */
  lemma {:induction false} BoundarySplits(s: seq<Byte>, i: nat)
    requires Valid(s) && i <= |s| && IsBoundary(s, i)
    ensures Valid(s[..i]) && Valid(s[i..])
  {
    if i == 0 {
      assert s[0..] == s;
    } else {
      var n := FirstChar(s);
      BoundaryAfterFirst(s, n, i);
      BoundarySplits(s[n..], i - n);
      CutTwice(s, n, i);
      CharThenValid(s[..n], s[n..][..i - n]);
    }
  }

  /** And only a boundary does: it is where a prefix is a string. */
  lemma {:induction false} BoundaryExactly(s: seq<Byte>, i: nat)
    requires Valid(s) && i <= |s|
    ensures IsBoundary(s, i) <==> Valid(s[..i])
  {
    if IsBoundary(s, i) {
      BoundarySplits(s, i);
    }
    if Valid(s[..i]) && 0 < i < |s| {
      var n := CharLen(s[0]);
      assert n <= i && s[..i][n..] == s[n..][..i - n];
      if n < i {
        BoundaryExactly(s[n..], i - n);
      }
    }
  }

  /** The last boundary at or below `i`. */
  function FloorBoundary(s: seq<Byte>, i: nat): (b: nat)
    ensures b <= i && IsBoundary(s, b)
    ensures forall k :: b < k <= i ==> !IsBoundary(s, k)
  {
    if i == 0 || IsBoundary(s, i) then i else FloorBoundary(s, i - 1)
  }

  lemma ValidConcat(a: seq<Byte>, b: seq<Byte>)
    requires Valid(a) && Valid(b)
    ensures Valid(a + b)
  {
    if a == [] {
      assert a + b == b;
    } else {
      var n := CharLen(a[0]);
      ValidConcat(a[n..], b);
      CharThenValid(a[..n], a[n..] + b);
      Associate(a[..n], a[n..], b);
      assert a == a[..n] + a[n..];
    }
  }

  function Flatten(chunks: seq<seq<Byte>>): seq<Byte> {
    if chunks == [] then [] else chunks[0] + Flatten(chunks[1..])
  }

  // ---------------------------------------------------------------- the mock AI provider's text chunks

  /** Non-empty and valid, within the limit unless it is a single character. */
  predicate Fine(chunk: seq<Byte>, maxBytes: nat) {
    chunk != [] && Valid(chunk) && (|chunk| <= maxBytes || IsChar(chunk))
  }

  /** A chunk from `start` on could not have ended at a later boundary within the size limit. */
  ghost predicate Longest(value: seq<Byte>, start: nat, chunk: seq<Byte>, maxBytes: nat) {
    forall n :: start + |chunk| < n <= start + maxBytes && n <= |value| ==> !IsBoundary(value, n)
  }

  /** The chunks follow one another from `start` on, each as long as the limit allows. */
  ghost predicate Greedy(value: seq<Byte>, start: nat, chunks: seq<seq<Byte>>, maxBytes: nat)
    decreases |chunks|
  {
    chunks != [] ==>
      Longest(value, start, chunks[0], maxBytes) && Greedy(value, start + |chunks[0]|, chunks[1..], maxBytes)
  }

  lemma {:induction false} GreedyAppend(value: seq<Byte>, start: nat, chunks: seq<seq<Byte>>, last: seq<Byte>,
                                        maxBytes: nat)
    requires Greedy(value, start, chunks, maxBytes) && Longest(value, start + |Flatten(chunks)|, last, maxBytes)
    ensures Greedy(value, start, chunks + [last], maxBytes) && Flatten(chunks + [last]) == Flatten(chunks) + last
    decreases |chunks|
  {
    if chunks == [] {
      assert [last][1..] == [];
    } else {
      assert (chunks + [last])[1..] == chunks[1..] + [last];
      GreedyAppend(value, start + |chunks[0]|, chunks[1..], last, maxBytes);
    }
  }

  /**
   The chunks concatenate to the input; each is a non-empty valid string, within the limit unless
   it is a single character, and as long as the limit allows.
   */
  method Chunks(value: seq<Byte>, maxBytes: nat) returns (chunks: seq<seq<Byte>>)
    requires Valid(value)
    ensures Flatten(chunks) == value
    ensures forall c :: c in chunks ==> Fine(c, maxBytes)
    ensures Greedy(value, 0, chunks, maxBytes)
  {
    chunks := [];
    if value == [] {
      return;
    }
    var start := 0;
    while start < |value|
      invariant start <= |value| && IsBoundary(value, start)
      invariant Flatten(chunks) == value[..start]
      invariant forall c :: c in chunks ==> Fine(c, maxBytes)
      invariant Greedy(value, 0, chunks, maxBytes)
      decreases |value| - start
    {
      var end := ChunkEnd(value, start, maxBytes);
      GreedyAppend(value, 0, chunks, value[start..end], maxBytes);
      TakeMore(value, start, end);
      chunks := chunks + [value[start..end]];
      start := end;
    }
    assert value[..start] == value;
  }

  /** The last boundary within the limit, or else the end of the one character that exceeds it. */
  method ChunkEnd(value: seq<Byte>, start: nat, maxBytes: nat) returns (end: nat)
    requires Valid(value) && start < |value| && IsBoundary(value, start)
    ensures start < end <= |value| && IsBoundary(value, end) && Fine(value[start..end], maxBytes)
    ensures Longest(value, start, value[start..end], maxBytes)
  {
    var limit := if start + maxBytes < |value| then start + maxBytes else |value|;
    end := limit;
    while end > start && !IsBoundary(value, end)
      invariant start <= end <= limit
      invariant forall n :: end < n <= limit ==> !IsBoundary(value, n)
    {
      end := end - 1;
    }
    if end == start {
      var n := CharLen(value[start]);
      ghost var m := CharAt(value, start);
      end := if start + n < |value| then start + n else |value|;
    }
    BetweenBoundaries(value, start, end);
  }

  lemma ShiftBoundary(value: seq<Byte>, start: nat, i: nat)
    requires start <= i <= |value| && IsBoundary(value, start)
    ensures IsBoundary(value[start..], i - start) <==> IsBoundary(value, i)
  {
  }

  lemma StartIsValid(s: seq<Byte>, i: nat)
    requires Valid(s) && i <= |s| && IsBoundary(s, i)
    ensures Valid(s[..i])
  {
    BoundarySplits(s, i);
  }

  lemma BetweenBoundaries(value: seq<Byte>, start: nat, end: nat)
    requires Valid(value) && start <= end <= |value| && IsBoundary(value, start) && IsBoundary(value, end)
    ensures Valid(value[start..end])
  {
    assert Valid(value[start..]) by { RestIsValid(value, start); }
    ShiftBoundary(value, start, end);
    StartIsValid(value[start..], end - start);
    TakeFromRest(value, start, end);
  }

  lemma RestIsValid(value: seq<Byte>, start: nat)
    requires Valid(value) && start <= |value| && IsBoundary(value, start)
    ensures Valid(value[start..])
  {
    BoundarySplits(value, start);
  }

  lemma CharAt(value: seq<Byte>, start: nat) returns (n: nat)
    requires Valid(value) && start < |value| && IsBoundary(value, start)
    ensures n == CharLen(value[start])
    ensures 0 < n && start + n <= |value| && IsBoundary(value, start + n) && IsChar(value[start..start + n])
    ensures forall i :: start < i < start + n ==> IsTail(value[i])
  {
    n := CharLen(value[start]);
    RestIsValid(value, start);
    CharAtStart(value, value[start..], start, n);
  }

  lemma CharAtStart(value: seq<Byte>, rest: seq<Byte>, start: nat, n: nat)
    requires start < |value| && rest == value[start..] && Valid(rest) && n == CharLen(value[start])
    ensures 0 < n && start + n <= |value| && IsBoundary(value, start + n) && IsChar(value[start..start + n])
    ensures forall i :: start < i < start + n ==> IsTail(value[i])
  {
    assert rest[..n] == value[start..start + n];
    assert forall i :: start <= i < |value| ==> value[i] == rest[i - start];
  }
}

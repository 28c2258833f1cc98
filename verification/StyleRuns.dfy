/**
 Rich-text style runs of the whiteboard document.

 A list of byte-range runs stands for a total function from byte offsets to styles
 (`StyleAt`). Every edit rewrites the list and re-normalises it. The edits are specified by
 what they do to that function; `CanonicalUnique` turns each such pointwise description into
 an exact statement about the list.
 */
module StyleRuns {
  import opened Basics

  datatype RunStyle = RunStyle(bold: bool, italic: bool, underline: bool, strike: bool, highlight: Option<bv32>)

  const PLAIN := RunStyle(false, false, false, false, None)

  datatype Format = Bold | Italic | Underline | Strike {
    predicate Get(s: RunStyle) {
      match this
      case Bold => s.bold
      case Italic => s.italic
      case Underline => s.underline
      case Strike => s.strike
    }

    function Set(s: RunStyle, on: bool): RunStyle {
      match this
      case Bold => s.(bold := on)
      case Italic => s.(italic := on)
      case Underline => s.(underline := on)
      case Strike => s.(strike := on)
    }
  }

  /** A style over the half-open byte range `[start, end)`; also used for the segments an edit works on. */
  datatype StyleSpan = StyleSpan(start: nat, end: nat, style: RunStyle) {
    predicate Covers(p: nat) { start <= p < end }

    predicate Apart(other: StyleSpan) {
      end <= other.start || other.end <= start || start >= end || other.start >= other.end
    }
  }

  /** The style of the first run covering `p`, else plain. */
  function StyleAt(spans: seq<StyleSpan>, p: nat): RunStyle {
    if spans == [] then PLAIN
    else if spans[0].Covers(p) then spans[0].style
    else StyleAt(spans[1..], p)
  }

  // ---------------------------------------------------------------- shapes of run lists

  ghost predicate Covered(spans: seq<StyleSpan>, p: nat) {
    exists r :: r in spans && r.Covers(p)
  }

  /** No offset is covered twice. */
  ghost predicate Disjoint(spans: seq<StyleSpan>) {
    forall i, j :: 0 <= i < j < |spans| ==> spans[i].Apart(spans[j])
  }

  /** Non-empty runs in increasing order: what every stored run list satisfies. */
  ghost predicate Ordered(spans: seq<StyleSpan>) {
    && (forall i :: 0 <= i < |spans| ==> spans[i].start < spans[i].end)
    && (forall i, j :: 0 <= i < j < |spans| ==> spans[i].end <= spans[j].start)
  }

  /** Ordered, no plain run, and no two touching runs of one style. */
  ghost predicate Canonical(spans: seq<StyleSpan>) {
    && Ordered(spans)
    && (forall i :: 0 <= i < |spans| ==> spans[i].style != PLAIN)
    && (forall i :: 0 < i < |spans| ==> spans[i - 1].end < spans[i].start || spans[i - 1].style != spans[i].style)
  }

  ghost predicate SameStyles(a: seq<StyleSpan>, b: seq<StyleSpan>) {
    forall p: nat :: StyleAt(a, p) == StyleAt(b, p)
  }

  lemma StyleAtConcat(a: seq<StyleSpan>, b: seq<StyleSpan>, p: nat)
    ensures StyleAt(a + b, p) == if Covered(a, p) then StyleAt(a, p) else StyleAt(b, p)
  {
    if a == [] {
      assert a + b == b;
    } else {
      assert (a + b)[1..] == a[1..] + b;
      StyleAtConcat(a[1..], b, p);
      assert Covered(a, p) <==> a[0].Covers(p) || Covered(a[1..], p) by {
        if Covered(a, p) {
          var r :| r in a && r.Covers(p);
          assert r == a[0] || r in a[1..];
        }
      }
    }
  }

  lemma StyleAtSingle(r: StyleSpan, p: nat)
    ensures StyleAt([r], p) == if r.Covers(p) then r.style else PLAIN
  {
    assert [r][1..] == [];
  }

  lemma StyleAtUncovered(spans: seq<StyleSpan>, p: nat)
    requires !Covered(spans, p)
    ensures StyleAt(spans, p) == PLAIN
  {
    if spans != [] {
      assert spans[0] in spans && forall r :: r in spans[1..] ==> r in spans;
      StyleAtUncovered(spans[1..], p);
    }
  }

  lemma StyleAtMember(spans: seq<StyleSpan>, i: nat, p: nat)
    requires Disjoint(spans) && i < |spans| && spans[i].Covers(p)
    ensures StyleAt(spans, p) == spans[i].style
  {
    if i > 0 {
      assert spans[0].Apart(spans[i]);
      StyleAtMember(spans[1..], i - 1, p);
    }
  }

  /** Two disjoint lists with the same non-empty runs describe the same styles. */
  lemma SameRunsSameStyles(a: seq<StyleSpan>, b: seq<StyleSpan>)
    requires Disjoint(a) && Disjoint(b)
    requires forall r: StyleSpan :: r.start < r.end ==> (r in a <==> r in b)
    ensures SameStyles(a, b)
  {
    forall p: nat ensures StyleAt(a, p) == StyleAt(b, p) {
      if Covered(a, p) {
        var r :| r in a && r.Covers(p);
        var i :| 0 <= i < |a| && a[i] == r;
        var j :| 0 <= j < |b| && b[j] == r;
        StyleAtMember(a, i, p);
        StyleAtMember(b, j, p);
      } else {
        assert !Covered(b, p);
        StyleAtUncovered(a, p);
        StyleAtUncovered(b, p);
      }
    }
  }

  lemma TailsAgree(a: seq<StyleSpan>, b: seq<StyleSpan>)
    requires Canonical(a) && Canonical(b) && SameStyles(a, b) && a != [] && b != [] && a[0] == b[0]
    ensures Canonical(a[1..]) && Canonical(b[1..]) && SameStyles(a[1..], b[1..])
  {
    forall p: nat ensures StyleAt(a[1..], p) == StyleAt(b[1..], p) {
      assert StyleAt(a, p) == StyleAt(b, p);
      if p < a[0].end {
        PlainBefore(a[1..], p, a[0].end);
        PlainBefore(b[1..], p, b[0].end);
      }
    }
  }

  /**
   The canonical form is unique: a style function has at most one canonical run list. All the
   list equalities below come from here.
   */
  lemma {:induction false} CanonicalUnique(a: seq<StyleSpan>, b: seq<StyleSpan>)
    requires Canonical(a) && Canonical(b) && SameStyles(a, b)
    ensures a == b
  {
    if a == [] || b == [] {
      assert a != [] ==> StyleAt(a, a[0].start) == StyleAt(b, a[0].start);
      assert b != [] ==> StyleAt(a, b[0].start) == StyleAt(b, b[0].start);
    } else {
      FirstRunNoLater(a, b);
      FirstRunNoLater(b, a);
      assert StyleAt(a, a[0].start) == StyleAt(b, a[0].start);
      FirstRunNoLonger(a, b);
      FirstRunNoLonger(b, a);
      TailsAgree(a, b);
      CanonicalUnique(a[1..], b[1..]);
    }
  }

  lemma PlainBefore(spans: seq<StyleSpan>, p: nat, bound: nat)
    requires p < bound && forall i :: 0 <= i < |spans| ==> bound <= spans[i].start
    ensures StyleAt(spans, p) == PLAIN
  {
    StyleAtUncovered(spans, p);
  }

  lemma FirstRunNoLater(a: seq<StyleSpan>, b: seq<StyleSpan>)
    requires Canonical(a) && Canonical(b) && SameStyles(a, b) && a != [] && b != []
    ensures b[0].start <= a[0].start
  {
    assert StyleAt(a, a[0].start) == StyleAt(b, a[0].start);
    if a[0].start < b[0].start {
      PlainBefore(b, a[0].start, b[0].start);
    }
  }

  lemma FirstRunNoLonger(a: seq<StyleSpan>, b: seq<StyleSpan>)
    requires Canonical(a) && Canonical(b) && SameStyles(a, b) && a != [] && b != []
    requires a[0].start == b[0].start && a[0].style == b[0].style
    ensures b[0].end <= a[0].end
  {
    var p := a[0].end;
    assert StyleAt(a, p) == StyleAt(a[1..], p) == StyleAt(b, p);
    assert |a| > 1 && a[1].start == p ==> StyleAt(a[1..], p) == a[1].style;
    if !(|a| > 1 && a[1].start == p) {
      PlainBefore(a[1..], p, p + 1);
    }
  }

  // ---------------------------------------------------------------- normalisation

  /** The standard library's stable sort by start offset, as an insertion sort. */
  function InsertByStart(r: StyleSpan, sorted: seq<StyleSpan>): seq<StyleSpan> {
    if sorted == [] || r.start <= sorted[0].start then [r] + sorted
    else [sorted[0]] + InsertByStart(r, sorted[1..])
  }

  function SortByStart(segs: seq<StyleSpan>): seq<StyleSpan> {
    if segs == [] then [] else InsertByStart(segs[0], SortByStart(segs[1..]))
  }

  ghost predicate SortedByStart(segs: seq<StyleSpan>) {
    forall i, j :: 0 <= i < j < |segs| ==> segs[i].start <= segs[j].start
  }

  lemma {:induction false} InsertByStartElems(r: StyleSpan, sorted: seq<StyleSpan>)
    ensures forall x :: x in InsertByStart(r, sorted) <==> x == r || x in sorted
  {
    if sorted != [] && r.start > sorted[0].start {
      InsertByStartElems(r, sorted[1..]);
    }
  }

  lemma {:induction false} InsertByStartFacts(r: StyleSpan, sorted: seq<StyleSpan>)
    requires SortedByStart(sorted) && Disjoint(sorted) && forall x :: x in sorted ==> r.Apart(x)
    ensures var out := InsertByStart(r, sorted);
            SortedByStart(out) && Disjoint(out) && forall x :: x in out <==> x == r || x in sorted
  {
    InsertByStartElems(r, sorted);
    if sorted == [] || r.start <= sorted[0].start {
    } else {
      var head, tail := sorted[0], sorted[1..];
      DisjointTail(sorted);
      assert r.Apart(head);
      InsertByStartFacts(r, tail);
      var rest := InsertByStart(r, tail);
      forall x | x in rest ensures head.Apart(x) && head.start <= x.start {
        if x != r {
          var i :| 0 <= i < |tail| && tail[i] == x;
          assert sorted[0].Apart(sorted[i + 1]);
        }
      }
      assert forall i :: 0 <= i < |rest| ==> rest[i] in rest;
    }
  }

  lemma DisjointTail(spans: seq<StyleSpan>)
    requires Disjoint(spans) && spans != []
    ensures Disjoint(spans[1..])
  {
    forall i, j | 0 <= i < j < |spans[1..]| ensures spans[1..][i].Apart(spans[1..][j]) {
      assert spans[i + 1].Apart(spans[j + 1]);
    }
  }

  lemma SortByStartFacts(segs: seq<StyleSpan>)
    requires Disjoint(segs)
    ensures var out := SortByStart(segs);
            SortedByStart(out) && Disjoint(out) && forall x :: x in out <==> x in segs
  {
    if segs != [] {
      DisjointTail(segs);
      SortByStartFacts(segs[1..]);
      var tail := SortByStart(segs[1..]);
      forall x | x in tail ensures segs[0].Apart(x) {
        var i :| 0 <= i < |segs[1..]| && segs[1..][i] == x;
        assert segs[0].Apart(segs[i + 1]);
      }
      InsertByStartFacts(segs[0], tail);
    }
  }

  /** `retain` of the non-empty segments. */
  function RetainNonEmpty(segs: seq<StyleSpan>): (out: seq<StyleSpan>)
    ensures forall r :: r in out <==> r in segs && r.start < r.end
    ensures Disjoint(segs) ==> Disjoint(out)
  {
    if segs == [] then []
    else
      var rest := RetainNonEmpty(segs[1..]);
      assert Disjoint(segs) ==> Disjoint(segs[1..]) by {
        if Disjoint(segs) { DisjointTail(segs); }
      }
      assert Disjoint(segs) ==> forall r :: r in rest ==> segs[0].Apart(r) by {
        if Disjoint(segs) {
          forall r | r in rest ensures segs[0].Apart(r) {
            var i :| 0 <= i < |segs[1..]| && segs[1..][i] == r;
            assert segs[0].Apart(segs[i + 1]);
          }
        }
      }
      if segs[0].start < segs[0].end then [segs[0]] + rest else rest
  }

  lemma ExtendLastRun(out: seq<StyleSpan>, r: StyleSpan)
    requires Canonical(out) && out != [] && out[|out| - 1].end == r.start < r.end && out[|out| - 1].style == r.style
    ensures var n := |out| - 1; var grown := out[n := out[n].(end := r.end)];
            Canonical(grown) && SameStyles(grown, out + [r])
  {
    var n := |out| - 1;
    var grown := out[n := out[n].(end := r.end)];
    var head, last := out[..n], out[n];
    assert grown == head + [last.(end := r.end)];
    assert out + [r] == head + [last, r];
    forall p: nat ensures StyleAt(grown, p) == StyleAt(out + [r], p) {
      StyleAtConcat(head, [last.(end := r.end)], p);
      StyleAtConcat(head, [last, r], p);
      assert [last, r][1..] == [r];
      assert StyleAt([last, r], p) == if last.Covers(p) then last.style else StyleAt([r], p);
      StyleAtSingle(r, p);
      StyleAtSingle(last.(end := r.end), p);
    }
  }

  lemma AppendKeepsStyles(a: seq<StyleSpan>, b: seq<StyleSpan>, tail: seq<StyleSpan>)
    requires SameStyles(a, b)
    requires forall p: nat :: Covered(a, p) || Covered(b, p) ==> !Covered(tail, p)
    ensures SameStyles(a + tail, b + tail)
  {
    forall p: nat ensures StyleAt(a + tail, p) == StyleAt(b + tail, p) {
      StyleAtConcat(a, tail, p);
      StyleAtConcat(b, tail, p);
      assert StyleAt(a, p) == StyleAt(b, p);
      if !Covered(a, p) { StyleAtUncovered(a, p); }
      if !Covered(b, p) { StyleAtUncovered(b, p); }
      if Covered(a, p) != Covered(b, p) { StyleAtUncovered(tail, p); }
    }
  }

  /** What the loop does with the next run: drop it, extend the last run with it, or append it. */
  function Accumulated(out: seq<StyleSpan>, r: StyleSpan): seq<StyleSpan> {
    if r.style == PLAIN then out
    else if out != [] && out[|out| - 1].end == r.start && out[|out| - 1].style == r.style then
      out[|out| - 1 := out[|out| - 1].(end := r.end)]
    else out + [r]
  }

  lemma NormalizeStep(out: seq<StyleSpan>, done: seq<StyleSpan>, r: StyleSpan)
    requires Canonical(out) && SameStyles(out, done) && Ordered(done + [r])
    requires forall i :: 0 <= i < |out| ==> out[i].end <= r.start
    ensures Canonical(Accumulated(out, r)) && SameStyles(Accumulated(out, r), done + [r])
    ensures forall i :: 0 <= i < |Accumulated(out, r)| ==> Accumulated(out, r)[i].end <= r.end
  {
    assert r.start < r.end by { assert (done + [r])[|done|] == r; }
    AppendAfter(out, done, r);
    if r.style == PLAIN {
      PlainAdds(out, r);
    } else if out != [] && out[|out| - 1].end == r.start && out[|out| - 1].style == r.style {
      ExtendLastRun(out, r);
    } else {
      AppendRun(out, r);
    }
  }

  lemma AppendRun(out: seq<StyleSpan>, r: StyleSpan)
    requires Canonical(out) && r.start < r.end && r.style != PLAIN
    requires forall i :: 0 <= i < |out| ==> out[i].end <= r.start
    requires out != [] ==> out[|out| - 1].end != r.start || out[|out| - 1].style != r.style
    ensures Canonical(out + [r])
  {
  }

  lemma AppendAfter(out: seq<StyleSpan>, done: seq<StyleSpan>, r: StyleSpan)
    requires SameStyles(out, done) && Ordered(done + [r])
    requires forall i :: 0 <= i < |out| ==> out[i].end <= r.start
    ensures SameStyles(out + [r], done + [r])
  {
    assert (done + [r])[|done|] == r;
    assert forall i :: 0 <= i < |done| ==> (done + [r])[i] == done[i];
    assert forall p: nat :: Covered(out, p) || Covered(done, p) ==> !Covered([r], p);
    AppendKeepsStyles(out, done, [r]);
  }

  lemma PlainAdds(out: seq<StyleSpan>, r: StyleSpan)
    requires r.style == PLAIN
    ensures SameStyles(out, out + [r])
  {
    forall p: nat ensures StyleAt(out, p) == StyleAt(out + [r], p) {
      StyleAtConcat(out, [r], p);
      if !Covered(out, p) { StyleAtUncovered(out, p); }
    }
  }

  lemma OrderedPrefix(sorted: seq<StyleSpan>, i: nat)
    requires Ordered(sorted) && i < |sorted|
    ensures sorted[..i] + [sorted[i]] == sorted[..i + 1] && Ordered(sorted[..i + 1])
  {
  }

  /** The merging loop. */
  method MergeRuns(sorted: seq<StyleSpan>) returns (out: seq<StyleSpan>)
    requires Ordered(sorted)
    ensures Canonical(out) && SameStyles(out, sorted)
  {
    out := [];
    for i := 0 to |sorted|
      invariant Canonical(out) && SameStyles(out, sorted[..i])
      invariant forall k :: 0 <= k < |out| && i < |sorted| ==> out[k].end <= sorted[i].start
    {
      var r := sorted[i];
      OrderedPrefix(sorted, i);
      NormalizeStep(out, sorted[..i], r);
      if r.style == PLAIN {
      } else if |out| > 0 && out[|out| - 1].end == r.start && out[|out| - 1].style == r.style {
        out := out[|out| - 1 := out[|out| - 1].(end := r.end)];
      } else {
        out := out + [r];
      }
    }
    assert sorted[..|sorted|] == sorted;
  }

  lemma SortedIsOrdered(segs: seq<StyleSpan>)
    requires Disjoint(segs)
    ensures Ordered(SortByStart(RetainNonEmpty(segs))) && SameStyles(SortByStart(RetainNonEmpty(segs)), segs)
  {
    var kept := RetainNonEmpty(segs);
    SortByStartFacts(kept);
    SameRunsSameStyles(SortByStart(kept), segs);
  }

  /**
   Drop empty segments, sort, merge touching equal runs, drop plain runs. For disjoint segments
   the result is the canonical list of the same style function.
   */
  method NormalizeStyles(segs: seq<StyleSpan>) returns (out: seq<StyleSpan>)
    requires Disjoint(segs)
    ensures Canonical(out) && SameStyles(out, segs)
  {
    SortedIsOrdered(segs);
    out := MergeRuns(SortByStart(RetainNonEmpty(segs)));
  }

  // ---------------------------------------------------------------- segments of a range

  /** Contiguous non-empty segments from `s` to `e`. */
  ghost predicate Tiles(segs: seq<StyleSpan>, s: nat, e: nat) {
    && (segs == [] ==> s == e)
    && (segs != [] ==> segs[0].start == s && segs[|segs| - 1].end == e)
    && (forall i :: 0 <= i < |segs| ==> segs[i].start < segs[i].end)
    && (forall i :: 0 < i < |segs| ==> segs[i - 1].end == segs[i].start)
  }

  /** Every segment carries the style `spans` gives to each of its offsets. */
  ghost predicate Agrees(segs: seq<StyleSpan>, spans: seq<StyleSpan>) {
    forall i, p: nat :: 0 <= i < |segs| && segs[i].Covers(p) ==> segs[i].style == StyleAt(spans, p)
  }

  lemma TilesOrdered(segs: seq<StyleSpan>, s: nat, e: nat)
    requires Tiles(segs, s, e)
    ensures s <= e && Ordered(segs) && forall r :: r in segs ==> s <= r.start < r.end <= e
  {
    if segs != [] {
      var n := |segs| - 1;
      assert Tiles(segs[..n], s, segs[n].start);
      TilesOrdered(segs[..n], s, segs[n].start);
      forall r | r in segs ensures s <= r.start < r.end <= e {
        assert r == segs[n] || r in segs[..n];
      }
      forall i, j | 0 <= i < j < |segs| ensures segs[i].end <= segs[j].start {
        assert segs[i] == segs[..n][i];
        if j < n { assert segs[j] == segs[..n][j]; }
      }
    }
  }

  lemma TilesCover(segs: seq<StyleSpan>, s: nat, e: nat, p: nat)
    requires Tiles(segs, s, e) && s <= p < e
    ensures Covered(segs, p)
  {
    var n := |segs| - 1;
    assert segs[n] in segs;
    if p < segs[n].start {
      assert Tiles(segs[..n], s, segs[n].start);
      TilesCover(segs[..n], s, segs[n].start, p);
      var r :| r in segs[..n] && r.Covers(p);
      assert r in segs;
    }
  }

  /** What a statement about all segments says about all offsets. */
  lemma SegmentsSpeakForOffsets(segs: seq<StyleSpan>, spans: seq<StyleSpan>, s: nat, e: nat)
    requires s < e && Tiles(segs, s, e) && Agrees(segs, spans)
    ensures forall i :: 0 <= i < |segs| ==> s <= segs[i].start < e && segs[i].style == StyleAt(spans, segs[i].start)
    ensures forall p: nat :: s <= p < e ==> exists i :: 0 <= i < |segs| && segs[i].style == StyleAt(spans, p)
  {
    TilesOrdered(segs, s, e);
    forall i | 0 <= i < |segs|
      ensures s <= segs[i].start < e && segs[i].style == StyleAt(spans, segs[i].start)
    {
      assert segs[i] in segs && segs[i].Covers(segs[i].start);
    }
    forall p: nat | s <= p < e ensures exists i :: 0 <= i < |segs| && segs[i].style == StyleAt(spans, p) {
      TilesCover(segs, s, e, p);
      var r :| r in segs && r.Covers(p);
      var i :| 0 <= i < |segs| && segs[i] == r;
    }
  }

  lemma AppendSegment(out: seq<StyleSpan>, spans: seq<StyleSpan>, s: nat, r: StyleSpan)
    requires Tiles(out, s, r.start) && Agrees(out, spans) && r.start < r.end
    requires forall p: nat :: r.Covers(p) ==> StyleAt(spans, p) == r.style
    ensures Tiles(out + [r], s, r.end) && Agrees(out + [r], spans)
  {
  }

  lemma GapIsPlain(spans: seq<StyleSpan>, a: nat, b: nat)
    requires forall k :: 0 <= k < |spans| ==> spans[k].end <= a || b <= spans[k].start
    ensures forall p: nat :: a <= p < b ==> StyleAt(spans, p) == PLAIN
  {
    forall p: nat | a <= p < b ensures StyleAt(spans, p) == PLAIN {
      StyleAtUncovered(spans, p);
    }
  }

  lemma RunIsUniform(spans: seq<StyleSpan>, i: nat)
    requires Ordered(spans) && i < |spans|
    ensures forall p: nat :: spans[i].Covers(p) ==> StyleAt(spans, p) == spans[i].style
  {
    forall p: nat | spans[i].Covers(p) ensures StyleAt(spans, p) == spans[i].style {
      StyleAtMember(spans, i, p);
    }
  }

  /** `[s, e)` as contiguous segments: the existing runs plus plain gaps. */
  method StyleSegments(spans: seq<StyleSpan>, s: nat, e: nat) returns (out: seq<StyleSpan>)
    requires Ordered(spans) && s < e
    ensures Tiles(out, s, e) && Agrees(out, spans)
  {
    out := [];
    var pos := s;
    for i := 0 to |spans|
      invariant s <= pos <= e && Tiles(out, s, pos) && Agrees(out, spans)
      invariant pos < e ==> forall k :: 0 <= k < i ==> spans[k].end <= pos || e <= spans[k].start
      invariant pos == s || (exists k :: 0 <= k < i && pos <= spans[k].end)
    {
      var sp := spans[i];
      if sp.start < e && sp.end > s {
        var a := if sp.start < s then s else sp.start;
        assert pos <= a;
        if a > pos {
          GapIsPlain(spans, pos, a);
          AppendSegment(out, spans, s, StyleSpan(pos, a, PLAIN));
          out := out + [StyleSpan(pos, a, PLAIN)];
        }
        var b := if sp.end < e then sp.end else e;
        RunIsUniform(spans, i);
        AppendSegment(out, spans, s, StyleSpan(a, b, sp.style));
        out := out + [StyleSpan(a, b, sp.style)];
        pos := b;
      }
    }
    if pos < e {
      GapIsPlain(spans, pos, e);
      AppendSegment(out, spans, s, StyleSpan(pos, e, PLAIN));
      out := out + [StyleSpan(pos, e, PLAIN)];
    }
  }

  // ---------------------------------------------------------------- replacing a range

  /** Where an offset at or after `e` lands when `[s, e)` becomes `n` bytes, clamped at 0. */
  function After(p: nat, s: nat, e: nat, n: nat): nat
    requires s <= e
  {
    var shifted: int := p + n - (e - s);
    if shifted < 0 then 0 else shifted
  }

  /** Where the byte now at `p` (outside the replacement) was before. */
  function Source(p: nat, s: nat, e: nat, n: nat): nat
    requires s <= e && (p < s || s + n <= p)
  {
    if p < s then p else p - n + (e - s)
  }

  /** The clamp never fires, and `After` undoes `Source`. */
  lemma ClampNeverFires(p: nat, s: nat, e: nat, n: nat)
    requires s <= e <= p
    ensures After(p, s, e, n) == p + n - (e - s) >= s + n
    ensures Source(After(p, s, e, n), s, e, n) == p
  {
  }

  /** What is left of a run outside `[s, e)`, the part after `e` moved along. */
  function Pieces(sp: StyleSpan, s: nat, e: nat, n: nat): seq<StyleSpan>
    requires s <= e
  {
    (if sp.start < s then [StyleSpan(sp.start, if sp.end < s then sp.end else s, sp.style)] else []) +
    (if sp.end > e then
       [StyleSpan(After(if sp.start < e then e else sp.start, s, e, n), After(sp.end, s, e, n), sp.style)]
     else [])
  }

  function Outside(spans: seq<StyleSpan>, s: nat, e: nat, n: nat): seq<StyleSpan>
    requires s <= e
  {
    if spans == [] then [] else Pieces(spans[0], s, e, n) + Outside(spans[1..], s, e, n)
  }

  lemma OutsideAppend(spans: seq<StyleSpan>, sp: StyleSpan, s: nat, e: nat, n: nat)
    requires s <= e
    ensures Outside(spans + [sp], s, e, n) == Outside(spans, s, e, n) + Pieces(sp, s, e, n)
  {
    if spans == [] {
      assert spans + [sp] == [sp] && [sp][1..] == [];
    } else {
      assert (spans + [sp])[1..] == spans[1..] + [sp];
      OutsideAppend(spans[1..], sp, s, e, n);
    }
  }

  lemma OutsideStep(spans: seq<StyleSpan>, i: nat, s: nat, e: nat, n: nat)
    requires s <= e && i < |spans|
    ensures Outside(spans[..i + 1], s, e, n) == Outside(spans[..i], s, e, n) + Pieces(spans[i], s, e, n)
  {
    assert spans[..i] + [spans[i]] == spans[..i + 1];
    OutsideAppend(spans[..i], spans[i], s, e, n);
  }

  lemma StyleAtOutside(spans: seq<StyleSpan>, s: nat, e: nat, n: nat, p: nat)
    requires s <= e
    ensures p < s || s + n <= p ==> StyleAt(Outside(spans, s, e, n), p) == StyleAt(spans, Source(p, s, e, n))
    ensures s <= p < s + n ==> !Covered(Outside(spans, s, e, n), p)
  {
    if spans != [] {
      var sp := spans[0];
      var pieces := Pieces(sp, s, e, n);
      StyleAtOutside(spans[1..], s, e, n, p);
      StyleAtConcat(pieces, Outside(spans[1..], s, e, n), p);
      if p < s || s + n <= p {
        assert Covered(pieces, p) <==> sp.Covers(Source(p, s, e, n)) by {
          if sp.Covers(Source(p, s, e, n)) {
            assert p < s ==> pieces[0] in pieces && pieces[0].Covers(p);
            assert s + n <= p ==> pieces[|pieces| - 1] in pieces && pieces[|pieces| - 1].Covers(p);
          }
        }
        assert Covered(pieces, p) ==> StyleAt(pieces, p) == sp.style by {
          if Covered(pieces, p) {
            AllOneStyle(pieces, sp.style, p);
          }
        }
      }
    }
  }

  lemma AllOneStyle(spans: seq<StyleSpan>, st: RunStyle, p: nat)
    requires Covered(spans, p) && forall r :: r in spans ==> r.style == st
    ensures StyleAt(spans, p) == st
  {
    if !spans[0].Covers(p) {
      var r :| r in spans && r.Covers(p);
      assert r in spans[1..];
      AllOneStyle(spans[1..], st, p);
    }
  }

  lemma OutsideBounds(spans: seq<StyleSpan>, s: nat, e: nat, n: nat, lo: nat)
    requires s <= e && Ordered(spans) && forall i :: 0 <= i < |spans| ==> lo <= spans[i].start
    ensures forall r :: r in Outside(spans, s, e, n) ==>
              || (lo <= r.start && r.start < s && r.end <= s)
              || (s + n <= r.start && After(lo, s, e, n) <= r.start)
  {
    if spans != [] {
      OutsideBounds(spans[1..], s, e, n, lo);
    }
  }

  lemma PiecesDisjoint(sp: StyleSpan, s: nat, e: nat, n: nat)
    requires s <= e && sp.start < sp.end
    ensures Disjoint(Pieces(sp, s, e, n))
    ensures forall r :: r in Pieces(sp, s, e, n) ==> r.end <= s || s + n <= r.start
  {
  }

  /** What is left of a run lies before what is left of the runs after it. */
  lemma PiecesApart(sp: StyleSpan, rest: seq<StyleSpan>, s: nat, e: nat, n: nat)
    requires s <= e && sp.start < sp.end && Ordered(rest)
    requires forall i :: 0 <= i < |rest| ==> sp.end <= rest[i].start
    ensures forall x, y :: x in Pieces(sp, s, e, n) && y in Outside(rest, s, e, n) ==> x.Apart(y)
  {
    OutsideBounds(rest, s, e, n, sp.end);
  }

  lemma OutsideDisjoint(spans: seq<StyleSpan>, s: nat, e: nat, n: nat)
    requires s <= e && Ordered(spans)
    ensures Disjoint(Outside(spans, s, e, n))
    ensures forall r :: r in Outside(spans, s, e, n) ==> r.end <= s || s + n <= r.start
  {
    if spans != [] {
      OutsideDisjoint(spans[1..], s, e, n);
      PiecesDisjoint(spans[0], s, e, n);
      PiecesApart(spans[0], spans[1..], s, e, n);
      DisjointConcat(Pieces(spans[0], s, e, n), Outside(spans[1..], s, e, n));
    }
  }

  lemma DisjointConcat(a: seq<StyleSpan>, b: seq<StyleSpan>)
    requires Disjoint(a) && Disjoint(b) && forall x, y :: x in a && y in b ==> x.Apart(y)
    ensures Disjoint(a + b)
  {
    var c := a + b;
    forall i, j | 0 <= i < j < |c| ensures c[i].Apart(c[j]) {
      if i < |a| <= j {
        assert c[i] in a && c[j] in b;
      } else if |a| <= i {
        assert c[i] == b[i - |a|] && c[j] == b[j - |a|];
      }
    }
  }

  /**
   `after` is `before` with `[s, e)` restyled by `mid` and stretched to `n` bytes: the common
   specification of replacing and splicing.
   */
  ghost predicate Replaces(before: seq<StyleSpan>, s: nat, e: nat, n: nat, mid: seq<StyleSpan>, after: seq<StyleSpan>)
    requires s <= e
  {
    && (forall p: nat :: s <= p < s + n ==> StyleAt(after, p) == StyleAt(mid, p))
    && (forall p: nat :: p < s || s + n <= p ==> StyleAt(after, p) == StyleAt(before, Source(p, s, e, n)))
  }

  lemma AssembledReplaces(spans: seq<StyleSpan>, s: nat, e: nat, n: nat, mid: seq<StyleSpan>)
    requires s <= e && Ordered(spans) && Disjoint(mid)
    requires forall r :: r in mid ==> s <= r.start && r.end <= s + n
    ensures var segs := Outside(spans, s, e, n) + mid;
            Disjoint(segs) && Replaces(spans, s, e, n, mid, segs)
  {
    var out := Outside(spans, s, e, n);
    OutsideDisjoint(spans, s, e, n);
    DisjointConcat(out, mid);
    forall p: nat
      ensures s <= p < s + n ==> StyleAt(out + mid, p) == StyleAt(mid, p)
      ensures p < s || s + n <= p ==> StyleAt(out + mid, p) == StyleAt(spans, Source(p, s, e, n))
    {
      StyleAtOutside(spans, s, e, n, p);
      StyleAtConcat(out, mid, p);
      if p < s || s + n <= p {
        StyleAtUncovered(mid, p);
        if !Covered(out, p) { StyleAtUncovered(out, p); }
      }
    }
  }

  /** The runs outside `[s, e)`, clipped. */
  method ClipOutside(spans: seq<StyleSpan>, s: nat, e: nat) returns (segs: seq<StyleSpan>)
    requires s <= e
    ensures segs == Outside(spans, s, e, e - s)
  {
    segs := [];
    for i := 0 to |spans|
      invariant segs == Outside(spans[..i], s, e, e - s)
    {
      var sp := spans[i];
      OutsideStep(spans, i, s, e, e - s);
      if sp.start < s {
        segs := segs + [StyleSpan(sp.start, if sp.end < s then sp.end else s, sp.style)];
      }
      if sp.end > e {
        segs := segs + [StyleSpan(if sp.start < e then e else sp.start, sp.end, sp.style)];
      }
    }
    assert spans[..|spans|] == spans;
  }

  /** Replace the styling of `[s, e)` by `mid`, keeping the runs outside. */
  method ReplaceSegment(spans: seq<StyleSpan>, s: nat, e: nat, mid: seq<StyleSpan>) returns (out: seq<StyleSpan>)
    requires s <= e && Ordered(spans) && Disjoint(mid)
    requires forall r :: r in mid ==> s <= r.start && r.end <= e
    ensures Canonical(out) && Replaces(spans, s, e, e - s, mid, out)
    ensures forall p: nat :: StyleAt(out, p) == if s <= p < e then StyleAt(mid, p) else StyleAt(spans, p)
  {
    var segs := ClipOutside(spans, s, e);
    AssembledReplaces(spans, s, e, e - s, mid);
    out := NormalizeStyles(segs + mid);
  }

  /** The runs outside `[s, e)`, clipped, and shifted behind the insertion. */
  method ClipAndShift(spans: seq<StyleSpan>, s: nat, e: nat, insLen: nat) returns (segs: seq<StyleSpan>)
    requires s <= e
    ensures segs == Outside(spans, s, e, insLen)
  {
    segs := [];
    for i := 0 to |spans|
      invariant segs == Outside(spans[..i], s, e, insLen)
    {
      var sp := spans[i];
      OutsideStep(spans, i, s, e, insLen);
      if sp.start < s {
        segs := segs + [StyleSpan(sp.start, if sp.end < s then sp.end else s, sp.style)];
      }
      if sp.end > e {
        segs := segs + [StyleSpan(After(if sp.start < e then e else sp.start, s, e, insLen),
                                  After(sp.end, s, e, insLen), sp.style)];
      }
    }
    assert spans[..|spans|] == spans;
  }

  /** Shift and clip the runs when the text `[s, e)` becomes `insLen` bytes styled `insertStyle`. */
  method SpliceStyles(spans: seq<StyleSpan>, s: nat, e: nat, insLen: nat, insertStyle: RunStyle)
    returns (out: seq<StyleSpan>)
    requires s <= e && Ordered(spans)
    ensures IsSplice(spans, s, e, insLen, insertStyle, out)
  {
    var segs := ClipAndShift(spans, s, e, insLen);
    ghost var mid := [];
    if insLen > 0 && insertStyle != PLAIN {
      mid := [StyleSpan(s, s + insLen, insertStyle)];
      segs := segs + [StyleSpan(s, s + insLen, insertStyle)];
    }
    AssembledReplaces(spans, s, e, insLen, mid);
    assert segs == Outside(spans, s, e, insLen) + mid;
    assert forall p: nat :: s <= p < s + insLen ==> StyleAt(mid, p) == insertStyle;
    out := NormalizeStyles(segs);
  }

  /** The specification of a splice: the list is canonical and every byte keeps its style across the edit. */
  ghost predicate IsSplice(before: seq<StyleSpan>, s: nat, e: nat, n: nat, st: RunStyle, after: seq<StyleSpan>)
    requires s <= e
  {
    && Canonical(after)
    && (forall p: nat :: p < s ==> StyleAt(after, p) == StyleAt(before, p))
    && (forall p: nat :: s <= p < s + n ==> StyleAt(after, p) == st)
    && (forall p: nat :: s + n <= p ==> StyleAt(after, p) == StyleAt(before, p - n + (e - s)))
  }

  /** Deleting exactly what was just inserted gives back the original list. */
  lemma InsertThenDelete(before: seq<StyleSpan>, s: nat, n: nat, st: RunStyle, st': RunStyle,
                         inserted: seq<StyleSpan>, deleted: seq<StyleSpan>)
    requires Canonical(before)
    requires IsSplice(before, s, s, n, st, inserted)
    requires IsSplice(inserted, s, s + n, 0, st', deleted)
    ensures deleted == before
  {
    forall p: nat ensures StyleAt(deleted, p) == StyleAt(before, p) {
      assert p >= s ==> StyleAt(deleted, p) == StyleAt(inserted, p + n);
    }
    CanonicalUnique(deleted, before);
  }

  /** Replacing a selection is deleting it and then inserting at its start. */
  lemma ReplaceIsDeleteThenInsert(before: seq<StyleSpan>, s: nat, e: nat, n: nat, st: RunStyle, st': RunStyle,
                                  replaced: seq<StyleSpan>, deleted: seq<StyleSpan>, inserted: seq<StyleSpan>)
    requires s <= e
    requires IsSplice(before, s, e, n, st, replaced)
    requires IsSplice(before, s, e, 0, st', deleted)
    requires IsSplice(deleted, s, s, n, st, inserted)
    ensures inserted == replaced
  {
    forall p: nat ensures StyleAt(inserted, p) == StyleAt(replaced, p) {
      if s + n <= p {
        assert StyleAt(inserted, p) == StyleAt(deleted, p - n) == StyleAt(before, p - n + (e - s));
      }
    }
    CanonicalUnique(inserted, replaced);
  }

  // ---------------------------------------------------------------- what a selection has in common

  ghost predicate AllHave(spans: seq<StyleSpan>, s: nat, e: nat, format: Format) {
    forall p: nat :: s <= p < e ==> format.Get(StyleAt(spans, p))
  }

  ghost predicate AllHighlighted(spans: seq<StyleSpan>, s: nat, e: nat, h: Option<bv32>) {
    forall p: nat :: s <= p < e ==> StyleAt(spans, p).highlight == h
  }

  /** One step of the accumulation: a flag or colour survives when both styles have it. */
  function Common(a: RunStyle, b: RunStyle): RunStyle {
    RunStyle(a.bold && b.bold, a.italic && b.italic, a.underline && b.underline, a.strike && b.strike,
             if a.highlight.Some? && b.highlight.Some? && a.highlight == b.highlight then a.highlight else None)
  }

  /** `acc` is exactly what the styles of `segs` have in common. */
  ghost predicate IsCommonTo(acc: RunStyle, segs: seq<StyleSpan>) {
    && (forall f: Format :: f.Get(acc) <==> forall i :: 0 <= i < |segs| ==> f.Get(segs[i].style))
    && (forall c :: acc.highlight == Some(c) <==> forall i :: 0 <= i < |segs| ==> segs[i].style.highlight == Some(c))
  }

  lemma CommonStep(acc: RunStyle, segs: seq<StyleSpan>, r: StyleSpan)
    requires segs != [] && IsCommonTo(acc, segs)
    ensures IsCommonTo(Common(acc, r.style), segs + [r])
  {
    var next, all := Common(acc, r.style), segs + [r];
    assert all[|segs|] == r && forall i :: 0 <= i < |segs| ==> all[i] == segs[i];
    forall f: Format ensures f.Get(next) <==> forall i :: 0 <= i < |all| ==> f.Get(all[i].style) {
      assert f.Get(next) <==> f.Get(acc) && f.Get(r.style);
    }
    forall c ensures next.highlight == Some(c) <==> forall i :: 0 <= i < |all| ==> all[i].style.highlight == Some(c) {
      assert next.highlight == Some(c) <==> acc.highlight == Some(c) && r.style.highlight == Some(c);
    }
  }

  lemma CommonOfOne(r: StyleSpan)
    ensures IsCommonTo(r.style, [r])
  {
    assert [r][0] == r;
  }

  /**
   The formatting common to every byte of `[s, e)`: a flag is reported exactly when every offset
   has it, a colour exactly when every offset is highlighted in it. A collapsed range reports the
   style just left of the caret.
   */
  method ActiveStyle(spans: seq<StyleSpan>, s: nat, e: nat) returns (acc: RunStyle)
    requires Ordered(spans)
    ensures s >= e ==> acc == StyleAt(spans, if s == 0 then 0 else s - 1)
    ensures s < e ==> forall f: Format :: f.Get(acc) <==> AllHave(spans, s, e, f)
    ensures s < e ==>
              && acc.bold == !SomeLacks(spans, s, e, Bold) && acc.italic == !SomeLacks(spans, s, e, Italic)
              && acc.underline == !SomeLacks(spans, s, e, Underline) && acc.strike == !SomeLacks(spans, s, e, Strike)
    ensures s < e ==> forall c :: acc.highlight == Some(c) <==> AllHighlighted(spans, s, e, Some(c))
  {
    if s >= e {
      return StyleAt(spans, if s == 0 then 0 else s - 1);
    }
    var segs := StyleSegments(spans, s, e);
    acc := segs[0].style;
    CommonOfOne(segs[0]);
    assert segs[..1] == [segs[0]];
    for i := 1 to |segs|
      invariant IsCommonTo(acc, segs[..i])
    {
      CommonStep(acc, segs[..i], segs[i]);
      assert segs[..i] + [segs[i]] == segs[..i + 1];
      acc := Common(acc, segs[i].style);
    }
    assert segs[..|segs|] == segs;
    CommonToSegmentsIsCommonToRange(acc, segs, spans, s, e);
    HaveOrLack(spans, s, e, Bold);
    HaveOrLack(spans, s, e, Italic);
    HaveOrLack(spans, s, e, Underline);
    HaveOrLack(spans, s, e, Strike);
    assert Bold.Get(acc) == acc.bold && Italic.Get(acc) == acc.italic;
    assert Underline.Get(acc) == acc.underline && Strike.Get(acc) == acc.strike;
  }

  /** Some offset of the range is without the flag. */
  ghost predicate SomeLacks(spans: seq<StyleSpan>, s: nat, e: nat, format: Format) {
    match format
    case Bold => exists p: nat :: s <= p < e && !StyleAt(spans, p).bold
    case Italic => exists p: nat :: s <= p < e && !StyleAt(spans, p).italic
    case Underline => exists p: nat :: s <= p < e && !StyleAt(spans, p).underline
    case Strike => exists p: nat :: s <= p < e && !StyleAt(spans, p).strike
  }

  lemma HaveOrLack(spans: seq<StyleSpan>, s: nat, e: nat, format: Format)
    ensures AllHave(spans, s, e, format) <==> !SomeLacks(spans, s, e, format)
  {
    if !AllHave(spans, s, e, format) {
      var p: nat :| s <= p < e && !format.Get(StyleAt(spans, p));
      assert !(format.Bold? && StyleAt(spans, p).bold) && !(format.Italic? && StyleAt(spans, p).italic);
      assert !(format.Underline? && StyleAt(spans, p).underline) && !(format.Strike? && StyleAt(spans, p).strike);
    } else {
      assert forall p: nat :: s <= p < e ==> format.Get(StyleAt(spans, p));
    }
  }

  lemma CommonToSegmentsIsCommonToRange(acc: RunStyle, segs: seq<StyleSpan>, spans: seq<StyleSpan>, s: nat, e: nat)
    requires s < e && Tiles(segs, s, e) && Agrees(segs, spans) && IsCommonTo(acc, segs)
    ensures forall f: Format :: f.Get(acc) <==> AllHave(spans, s, e, f)
    ensures forall c :: acc.highlight == Some(c) <==> AllHighlighted(spans, s, e, Some(c))
  {
    forall f: Format ensures f.Get(acc) <==> AllHave(spans, s, e, f) {
      SegmentsHave(segs, spans, s, e, f);
    }
    forall c ensures acc.highlight == Some(c) <==> AllHighlighted(spans, s, e, Some(c)) {
      SegmentsHighlighted(segs, spans, s, e, Some(c));
    }
  }

  lemma SegmentsHave(segs: seq<StyleSpan>, spans: seq<StyleSpan>, s: nat, e: nat, f: Format)
    requires s < e && Tiles(segs, s, e) && Agrees(segs, spans)
    ensures AllHave(spans, s, e, f) <==> forall i :: 0 <= i < |segs| ==> f.Get(segs[i].style)
  {
    SegmentsSpeakForOffsets(segs, spans, s, e);
    forall i | 0 <= i < |segs| && AllHave(spans, s, e, f) ensures f.Get(segs[i].style) {
      assert f.Get(StyleAt(spans, segs[i].start));
    }
  }

  lemma SegmentsHighlighted(segs: seq<StyleSpan>, spans: seq<StyleSpan>, s: nat, e: nat, h: Option<bv32>)
    requires s < e && Tiles(segs, s, e) && Agrees(segs, spans)
    ensures AllHighlighted(spans, s, e, h) <==> forall i :: 0 <= i < |segs| ==> segs[i].style.highlight == h
  {
    SegmentsSpeakForOffsets(segs, spans, s, e);
    forall i | 0 <= i < |segs| && AllHighlighted(spans, s, e, h) ensures segs[i].style.highlight == h {
      assert StyleAt(spans, segs[i].start).highlight == h;
    }
  }

  // ---------------------------------------------------------------- toggling

  /**
   `after` is `before` with `format` set over `[s, e)` to "not every offset had it", every other
   flag and every other offset unchanged.
   */
  ghost predicate IsFormatToggle(before: seq<StyleSpan>, s: nat, e: nat, format: Format, after: seq<StyleSpan>) {
    if s >= e then after == before
    else
      && Canonical(after)
      && forall p: nat :: StyleAt(after, p) ==
                          if s <= p < e then format.Set(StyleAt(before, p), !AllHave(before, s, e, format))
                          else StyleAt(before, p)
  }

  ghost predicate IsHighlightToggle(before: seq<StyleSpan>, s: nat, e: nat, color: bv32, after: seq<StyleSpan>) {
    if s >= e then after == before
    else
      var h := if AllHighlighted(before, s, e, Some(color)) then None else Some(color);
      && Canonical(after)
      && forall p: nat :: StyleAt(after, p) ==
                          if s <= p < e then StyleAt(before, p).(highlight := h) else StyleAt(before, p)
  }

  /** A tiling restyled segment by segment, as the middle of a replacement. */
  lemma RestyledTiling(segs: seq<StyleSpan>, spans: seq<StyleSpan>, s: nat, e: nat, restyle: RunStyle -> RunStyle,
                       mid: seq<StyleSpan>)
    requires Tiles(segs, s, e) && Agrees(segs, spans)
    requires |mid| == |segs|
    requires forall i :: 0 <= i < |segs| ==> mid[i] == segs[i].(style := restyle(segs[i].style))
    ensures Disjoint(mid) && forall r :: r in mid ==> s <= r.start && r.end <= e
    ensures forall p: nat :: s <= p < e ==> StyleAt(mid, p) == restyle(StyleAt(spans, p))
  {
    assert Tiles(mid, s, e);
    TilesOrdered(mid, s, e);
    forall p: nat | s <= p < e ensures StyleAt(mid, p) == restyle(StyleAt(spans, p)) {
      TilesCover(mid, s, e, p);
      var r :| r in mid && r.Covers(p);
      var i :| 0 <= i < |mid| && mid[i] == r;
      StyleAtMember(mid, i, p);
      assert segs[i].Covers(p);
    }
  }

  method ToggleFormat(spans: seq<StyleSpan>, s: nat, e: nat, format: Format) returns (out: seq<StyleSpan>)
    requires Ordered(spans)
    ensures IsFormatToggle(spans, s, e, format, out)
  {
    if s >= e {
      return spans;
    }
    var segs := StyleSegments(spans, s, e);
    var add := !(forall i :: 0 <= i < |segs| ==> format.Get(segs[i].style));
    SegmentsHave(segs, spans, s, e, format);
    var mid := seq(|segs|, i requires 0 <= i < |segs| => segs[i].(style := format.Set(segs[i].style, add)));
    RestyledTiling(segs, spans, s, e, (st: RunStyle) => format.Set(st, add), mid);
    out := ReplaceSegment(spans, s, e, mid);
  }

  lemma HighlightReplaced(before: seq<StyleSpan>, s: nat, e: nat, color: bv32, h: Option<bv32>, mid: seq<StyleSpan>,
                          after: seq<StyleSpan>)
    requires s < e && Canonical(after) && Replaces(before, s, e, e - s, mid, after)
    requires h == if AllHighlighted(before, s, e, Some(color)) then None else Some(color)
    requires forall p: nat :: s <= p < e ==> StyleAt(mid, p) == StyleAt(before, p).(highlight := h)
    ensures IsHighlightToggle(before, s, e, color, after)
  {
  }

  method ToggleHighlight(spans: seq<StyleSpan>, s: nat, e: nat, color: bv32) returns (out: seq<StyleSpan>)
    requires Ordered(spans)
    ensures IsHighlightToggle(spans, s, e, color, out)
  {
    if s >= e {
      return spans;
    }
    var segs := StyleSegments(spans, s, e);
    var on := !(forall i :: 0 <= i < |segs| ==> segs[i].style.highlight == Some(color));
    SegmentsHighlighted(segs, spans, s, e, Some(color));
    var h := if on then Some(color) else None;
    var mid := seq(|segs|, i requires 0 <= i < |segs| => segs[i].(style := segs[i].style.(highlight := h)));
    RestyledTiling(segs, spans, s, e, (st: RunStyle) => st.(highlight := h), mid);
    out := ReplaceSegment(spans, s, e, mid);
    HighlightReplaced(spans, s, e, color, h, mid, out);
  }

  // ---------------------------------------------------------------- laws of toggling

  /** The named flag becomes `on` inside the range, and every other flag, the highlight, and the outside stay. */
  ghost predicate SetsOnly(format: Format, on: bool, inside: bool, x: RunStyle, y: RunStyle) {
    && y.bold == (if inside && format.Bold? then on else x.bold)
    && y.italic == (if inside && format.Italic? then on else x.italic)
    && y.underline == (if inside && format.Underline? then on else x.underline)
    && y.strike == (if inside && format.Strike? then on else x.strike)
    && y.highlight == x.highlight
  }

  /** Each toggle touches the field it is named after, and turns it off exactly when all of the range had it. */
  lemma ToggleSetsNamedField(before: seq<StyleSpan>, s: nat, e: nat, format: Format, after: seq<StyleSpan>)
    returns (on: bool)
    requires s < e && IsFormatToggle(before, s, e, format, after)
    ensures forall p: nat :: SetsOnly(format, on, s <= p < e, StyleAt(before, p), StyleAt(after, p))
    ensures on <==> SomeLacks(before, s, e, format)
  {
    on := !AllHave(before, s, e, format);
    HaveOrLack(before, s, e, format);
    forall p: nat ensures SetsOnly(format, on, s <= p < e, StyleAt(before, p), StyleAt(after, p)) {
      assert StyleAt(after, p) == if s <= p < e then format.Set(StyleAt(before, p), on) else StyleAt(before, p);
    }
  }

  /** After a toggle the whole range has the flag exactly when it did not before. */
  lemma ToggleFlipsAll(before: seq<StyleSpan>, s: nat, e: nat, format: Format, after: seq<StyleSpan>)
    requires s < e && IsFormatToggle(before, s, e, format, after)
    ensures AllHave(after, s, e, format) <==> !AllHave(before, s, e, format)
    ensures forall p: nat :: s <= p < e ==> format.Get(StyleAt(after, p)) == !AllHave(before, s, e, format)
  {
    assert s <= s < e && format.Get(StyleAt(after, s)) == !AllHave(before, s, e, format);
  }

  lemma SetGet(format: Format, st: RunStyle, on: bool)
    ensures format.Get(format.Set(st, on)) == on
    ensures format.Get(st) == on <==> format.Set(st, on) == st
    ensures forall on' :: format.Set(format.Set(st, on'), on) == format.Set(st, on)
  {
  }

  /** Toggling three times is toggling once, as lists. */
  lemma ToggleThrice(r0: seq<StyleSpan>, s: nat, e: nat, format: Format,
                     r1: seq<StyleSpan>, r2: seq<StyleSpan>, r3: seq<StyleSpan>)
    requires IsFormatToggle(r0, s, e, format, r1)
    requires IsFormatToggle(r1, s, e, format, r2)
    requires IsFormatToggle(r2, s, e, format, r3)
    ensures r3 == r1
  {
    if s < e {
      ToggleFlipsAll(r0, s, e, format, r1);
      ToggleFlipsAll(r1, s, e, format, r2);
      forall p: nat ensures StyleAt(r3, p) == StyleAt(r1, p) {
        var st := StyleAt(r0, p);
        assert s <= p < e ==> StyleAt(r2, p) == format.Set(StyleAt(r1, p), AllHave(r0, s, e, format));
      }
      CanonicalUnique(r3, r1);
    }
  }

  /** Toggling twice is the identity exactly when the range was uniform in that flag. */
  lemma ToggleTwice(r0: seq<StyleSpan>, s: nat, e: nat, format: Format, r1: seq<StyleSpan>, r2: seq<StyleSpan>)
    requires Canonical(r0) && s < e
    requires IsFormatToggle(r0, s, e, format, r1)
    requires IsFormatToggle(r1, s, e, format, r2)
    ensures r2 == r0 <==> AllHave(r0, s, e, format) || forall p: nat :: s <= p < e ==> !format.Get(StyleAt(r0, p))
  {
    var all := AllHave(r0, s, e, format);
    ToggleFlipsAll(r0, s, e, format, r1);
    ToggleFlipsAll(r1, s, e, format, r2);
    forall p: nat ensures StyleAt(r2, p) == if s <= p < e then format.Set(StyleAt(r0, p), all) else StyleAt(r0, p) {
      SetGet(format, StyleAt(r0, p), all);
      assert s <= p < e ==> StyleAt(r2, p) == format.Set(StyleAt(r1, p), all);
    }
    if all || forall p: nat :: s <= p < e ==> !format.Get(StyleAt(r0, p)) {
      forall p: nat ensures StyleAt(r2, p) == StyleAt(r0, p) { SetGet(format, StyleAt(r0, p), all); }
      CanonicalUnique(r2, r0);
    } else {
      var p: nat :| s <= p < e && format.Get(StyleAt(r0, p));
      SetGet(format, StyleAt(r0, p), all);
      assert StyleAt(r2, p) == format.Set(StyleAt(r0, p), all);
      assert !format.Get(StyleAt(r2, p));
    }
  }

  lemma HighlightThrice(r0: seq<StyleSpan>, s: nat, e: nat, color: bv32,
                        r1: seq<StyleSpan>, r2: seq<StyleSpan>, r3: seq<StyleSpan>)
    requires IsHighlightToggle(r0, s, e, color, r1)
    requires IsHighlightToggle(r1, s, e, color, r2)
    requires IsHighlightToggle(r2, s, e, color, r3)
    ensures r3 == r1
  {
    if s < e {
      HighlightFlipsAll(r0, s, e, color, r1);
      HighlightFlipsAll(r1, s, e, color, r2);
      forall p: nat ensures StyleAt(r3, p) == StyleAt(r1, p) {
        assert s <= p < e ==> StyleAt(r2, p).(highlight := StyleAt(r1, p).highlight) == StyleAt(r1, p);
      }
      CanonicalUnique(r3, r1);
    }
  }

  lemma HighlightFlipsAll(before: seq<StyleSpan>, s: nat, e: nat, color: bv32, after: seq<StyleSpan>)
    requires s < e && IsHighlightToggle(before, s, e, color, after)
    ensures AllHighlighted(after, s, e, Some(color)) <==> !AllHighlighted(before, s, e, Some(color))
    ensures AllHighlighted(after, s, e, None) <==> AllHighlighted(before, s, e, Some(color))
  {
    assert s <= s < e;
    assert StyleAt(after, s).highlight == if AllHighlighted(before, s, e, Some(color)) then None else Some(color);
  }

  /**
   Toggling a highlight twice is the identity exactly when the range was all in that colour or all
   unhighlighted: over any other colour the first toggle overwrites it.
   */
  lemma HighlightTwice(r0: seq<StyleSpan>, s: nat, e: nat, color: bv32, r1: seq<StyleSpan>, r2: seq<StyleSpan>)
    requires Canonical(r0) && s < e
    requires IsHighlightToggle(r0, s, e, color, r1)
    requires IsHighlightToggle(r1, s, e, color, r2)
    ensures r2 == r0 <==> AllHighlighted(r0, s, e, Some(color)) || AllHighlighted(r0, s, e, None)
  {
    HighlightFlipsAll(r0, s, e, color, r1);
    var h := if AllHighlighted(r0, s, e, Some(color)) then Some(color) else None;
    forall p: nat
      ensures StyleAt(r2, p) == if s <= p < e then StyleAt(r0, p).(highlight := h) else StyleAt(r0, p)
    {
      assert s <= p < e ==> StyleAt(r2, p) == StyleAt(r1, p).(highlight := h);
    }
    if AllHighlighted(r0, s, e, Some(color)) || AllHighlighted(r0, s, e, None) {
      CanonicalUnique(r2, r0);
    }
  }
}

/**
 The bounded diagnostic line reader: a streaming, chunk-by-chunk loop that refines splitting the
 whole input at line feeds.

 Strings are their UTF-8 bytes. The lossy decoding of the standard library is a parameter: any
 function whose results are valid strings.
 */
module LineReader {
  import opened Basics
  import opened Utf8

  const MAX_LINE_BYTES: nat := 4096
  const LF: Byte := 10
  const CR: Byte := 13
  const ELLIPSIS: seq<Byte> := [46, 46, 46]

  // ---------------------------------------------------------------- truncation of a string

  /** The specification: the longest whole-character prefix that leaves room for the dots. */
  function Truncated(value: seq<Byte>, maxBytes: nat): seq<Byte> {
    if |value| <= maxBytes then value
    else if maxBytes <= 3 then value[..FloorBoundary(value, maxBytes)]
    else value[..FloorBoundary(value, maxBytes - 3)] + ELLIPSIS
  }

  /** The value as it is when it fits; else its longest whole-character prefix that fits, with the dots if they can. */
  ghost predicate IsCut(value: seq<Byte>, maxBytes: nat, out: seq<Byte>) {
    if |value| <= maxBytes then out == value
    else
      var dots := if maxBytes <= 3 then [] else ELLIPSIS;
      exists n: nat :: IsLongestStart(value, n, maxBytes - |dots|) && out == value[..n] + dots
  }

  /** The first `n` bytes are whole characters, and no more whole characters fit. */
  ghost predicate IsLongestStart(value: seq<Byte>, n: nat, room: nat) {
    && n <= |value| && n <= room && IsBoundary(value, n)
    && forall k :: n < k <= |value| && IsBoundary(value, k) ==> room < k
  }

  lemma TruncatedIsCut(value: seq<Byte>, maxBytes: nat)
    ensures IsCut(value, maxBytes, Truncated(value, maxBytes))
  {
    if |value| > maxBytes {
      var room := if maxBytes <= 3 then maxBytes else maxBytes - 3;
      var n := FloorBoundary(value, room);
      assert IsLongestStart(value, n, room);
      assert value[..n] + [] == value[..n];
    }
  }

  lemma AsciiIsValid(s: seq<Byte>)
    requires forall i :: 0 <= i < |s| ==> s[i] <= 0x7F
    ensures Valid(s)
  {
    if s != [] {
      AsciiIsValid(s[1..]);
    }
  }

  lemma TruncatedFits(value: seq<Byte>, maxBytes: nat)
    requires Valid(value)
    ensures Valid(Truncated(value, maxBytes)) && |Truncated(value, maxBytes)| <= maxBytes
  {
    if |value| > maxBytes {
      var end := FloorBoundary(value, if maxBytes <= 3 then maxBytes else maxBytes - 3);
      BoundarySplits(value, end);
      AsciiIsValid(ELLIPSIS);
      ValidConcat(value[..end], ELLIPSIS);
    }
  }

  /** A string too long is cut at a character boundary no further than necessary. */
  method TruncateUtf8(value: seq<Byte>, maxBytes: nat) returns (out: seq<Byte>)
    requires Valid(value)
    ensures out == Truncated(value, maxBytes)
    ensures |value| <= maxBytes ==> out == value
    ensures |value| > maxBytes ==>
              var dots := if maxBytes <= 3 then [] else [46, 46, 46];
              exists n: nat :: n <= |value| && out == value[..n] + dots
                               && n + |dots| <= maxBytes && IsBoundary(value, n)
                               && forall k :: n < k <= |value| && IsBoundary(value, k) ==> maxBytes < k + |dots|
    ensures Valid(out) && |out| <= maxBytes
  {
    TruncatedFits(value, maxBytes);
    TruncatedIsCut(value, maxBytes);
    if |value| <= maxBytes {
      return value;
    }
    var end := if maxBytes <= 3 then maxBytes else maxBytes - 3;
    ghost var from := end;
    while end > 0 && !IsBoundary(value, end)
      invariant 0 <= end <= from && FloorBoundary(value, end) == FloorBoundary(value, from)
    {
      end := end - 1;
    }
    if maxBytes <= 3 {
      return value[..end];
    }
    return value[..end] + ELLIPSIS;
  }

  // ---------------------------------------------------------------- the simple specification

  /** A line as retained: its first bytes, and whether there were more. */
  datatype Line = Line(kept: seq<Byte>, truncated: bool)

  function FindLF(s: seq<Byte>): (i: Option<nat>)
    ensures i.None? <==> LF !in s
    ensures i.Some? ==> i.value < |s| && s[i.value] == LF && LF !in s[..i.value]
  {
    if s == [] then None
    else if s[0] == LF then Some(0)
    else
      var rest := FindLF(s[1..]);
      if rest.None? then None
      else
        assert s[..rest.value + 1] == [s[0]] + s[1..][..rest.value];
        Some(rest.value + 1)
  }

  function Kept(content: seq<Byte>): seq<Byte> {
    if |content| <= MAX_LINE_BYTES then content else content[..MAX_LINE_BYTES]
  }

  function PopCR(kept: seq<Byte>): seq<Byte> {
    if kept != [] && kept[|kept| - 1] == CR then kept[..|kept| - 1] else kept
  }

  /** The lines ended by a line feed; one carriage return retained before it is dropped. */
  function CompleteLines(input: seq<Byte>): seq<Line> {
    var i := FindLF(input);
    if i.None? then []
    else [Line(PopCR(Kept(input[..i.value])), i.value > MAX_LINE_BYTES)] + CompleteLines(input[i.value + 1..])
  }

  /** What follows the last line feed. */
  function Rest(input: seq<Byte>): seq<Byte> {
    var i := FindLF(input);
    if i.None? then input else Rest(input[i.value + 1..])
  }

  /** All lines, a non-empty unfinished one included, its carriage return kept. */
  function AllLines(input: seq<Byte>): seq<Line> {
    CompleteLines(input) +
    if Rest(input) == [] then [] else [Line(Kept(Rest(input)), |Rest(input)| > MAX_LINE_BYTES)]
  }

  // ---------------------------------------------------------------- delivery

  type Lossy = seq<Byte> -> seq<Byte>

  /** The string handed to the callback. */
  function Finished(line: Line, lossy: Lossy): seq<Byte> {
    var text := lossy(line.kept);
    if line.truncated then Truncated(text + ELLIPSIS, MAX_LINE_BYTES) else Truncated(text, MAX_LINE_BYTES)
  }

  function Delivered(lines: seq<Line>, lossy: Lossy): seq<seq<Byte>> {
    seq(|lines|, i requires 0 <= i < |lines| => Finished(lines[i], lossy))
  }

  /** The dots, preceded by the longest whole-character start of the text followed by dots that leaves room for them. */
  ghost predicate EndsInDots(text: seq<Byte>, out: seq<Byte>) {
    exists n: nat :: n <= |text + ELLIPSIS| && out == (text + ELLIPSIS)[..n] + ELLIPSIS
                     && IsBoundary(text + ELLIPSIS, n) && |out| <= MAX_LINE_BYTES
                     && (n == |text| || IsLongestStart(text + ELLIPSIS, n, MAX_LINE_BYTES - 3))
  }

  lemma FinishedIsCut(line: Line, lossy: Lossy)
    ensures IsCut(lossy(line.kept) + if line.truncated then ELLIPSIS else [], MAX_LINE_BYTES, Finished(line, lossy))
    ensures line.truncated ==> EndsInDots(lossy(line.kept), Finished(line, lossy))
  {
    var text, out := lossy(line.kept), Finished(line, lossy);
    assert text + [] == text;
    TruncatedIsCut(text + if line.truncated then ELLIPSIS else [], MAX_LINE_BYTES);
    if line.truncated {
      var value := text + ELLIPSIS;
      if |value| <= MAX_LINE_BYTES {
        assert out == value[..|text|] + ELLIPSIS && IsBoundary(value, |text|);
      } else {
        var n: nat :| IsLongestStart(value, n, MAX_LINE_BYTES - |ELLIPSIS|) && out == value[..n] + ELLIPSIS;
      }
    }
  }

  method FinishLine(kept: seq<Byte>, truncated: bool, lossy: Lossy) returns (out: seq<Byte>)
    requires Valid(lossy(kept))
    ensures out == Finished(Line(kept, truncated), lossy)
    ensures IsCut(lossy(kept) + if truncated then ELLIPSIS else [], MAX_LINE_BYTES, out)
    ensures !truncated && |lossy(kept)| <= MAX_LINE_BYTES ==> out == lossy(kept)
    ensures truncated ==> EndsInDots(lossy(kept), out)
    ensures Bounded(out)
  {
    FinishedIsCut(Line(kept, truncated), lossy);
    var text := lossy(kept);
    if truncated {
      AsciiIsValid(ELLIPSIS);
      ValidConcat(text, ELLIPSIS);
      out := TruncateUtf8(text + ELLIPSIS, MAX_LINE_BYTES);
    } else if |text| > MAX_LINE_BYTES {
      out := TruncateUtf8(text, MAX_LINE_BYTES);
    } else {
      out := text;
    }
  }

  // ---------------------------------------------------------------- the input as reads deliver it

  /** One result of reading the underlying stream; an empty chunk is the end of the stream. */
  datatype Read = Chunk(bytes: seq<Byte>) | Error

  function Input(script: seq<Read>): seq<Byte> {
    if script == [] || script[0].Error? || script[0].bytes == [] then [] else script[0].bytes + Input(script[1..])
  }

  predicate EndsInError(script: seq<Read>) {
    script != [] && (script[0].Error? || (script[0].bytes != [] && EndsInError(script[1..])))
  }

  datatype Outcome = Done | Failed | Stopped

  lemma FindLFAt(s: seq<Byte>, n: nat)
    requires n < |s| && s[n] == LF && LF !in s[..n]
    ensures FindLF(s) == Some(n)
  {
    var i := FindLF(s);
    assert s[n] in s;
    assert forall k :: 0 <= k < n ==> s[k] == s[..n][k] && s[k] in s[..n];
    assert forall k :: 0 <= k < i.value ==> s[k] == s[..i.value][k] && s[k] in s[..i.value];
  }

  lemma LinesStep(content: seq<Byte>, rest: seq<Byte>)
    requires LF !in content
    ensures CompleteLines(content + [LF] + rest) ==
              [Line(PopCR(Kept(content)), |content| > MAX_LINE_BYTES)] + CompleteLines(rest)
    ensures Rest(content + [LF] + rest) == Rest(rest)
  {
    var all, n := content + [LF] + rest, |content|;
    assert all[..n] == content && all[n + 1..] == rest && all[n] == LF;
    FindLFAt(all, n);
  }

  lemma DeliveredConcat(a: seq<Line>, b: seq<Line>, lossy: Lossy)
    ensures Delivered(a + b, lossy) == Delivered(a, lossy) + Delivered(b, lossy)
  {
  }

  function TotalBytes(script: seq<Read>): nat {
    if script == [] then 0 else (if script[0].Chunk? then |script[0].bytes| else 0) + TotalBytes(script[1..])
  }

  /** `fill_buf`: what is buffered, else the next read. */
  method FillBuf(buffer: seq<Byte>, script: seq<Read>) returns (r: Option<seq<Byte>>, rest: seq<Read>)
    ensures r.None? ==> buffer == [] && EndsInError(script) && Input(script) == []
    ensures r.Some? && r.value != [] ==>
              r.value + Input(rest) == buffer + Input(script) && EndsInError(rest) == EndsInError(script)
    ensures r == Some([]) ==> buffer == [] && Input(script) == [] && !EndsInError(script)
    ensures r.Some? ==> |r.value| + TotalBytes(rest) == |buffer| + TotalBytes(script)
  {
    if buffer != [] || script == [] {
      return Some(buffer), script;
    }
    if script[0].Error? {
      return None, script;
    }
    return Some(script[0].bytes), script[1..];
  }

  /** Copying as much of a piece as still fits keeps the line buffer the start of the content. */
  lemma KeepMore(line: seq<Byte>, content: seq<Byte>, buffer: seq<Byte>, length: nat, copied: nat)
    requires line == Kept(content) && copied <= length <= |buffer|
    requires copied == (if |content| > MAX_LINE_BYTES then 0
                        else if length < MAX_LINE_BYTES - |content| then length else MAX_LINE_BYTES - |content|)
    ensures line + buffer[..copied] == Kept(content + buffer[..length])
    ensures |content + buffer[..length]| > MAX_LINE_BYTES <==> |content| > MAX_LINE_BYTES || copied < length
  {
  }

  lemma PieceTaken(content: seq<Byte>, buffer: seq<Byte>, length: nat, end: seq<Byte>, consumed: nat)
    requires length <= consumed <= |buffer| && consumed == length + |end| && buffer[length..consumed] == end
    ensures content + buffer == content + buffer[..length] + end + buffer[consumed..]
  {
    assert buffer == buffer[..length] + end + buffer[consumed..];
  }

  /**
   One buffer's worth: what precedes its first line feed, if any, is appended to the line as far as
   the bound allows. `content` is the line without the bound.
   */
  method TakePiece(line: seq<Byte>, truncated: bool, buffer: seq<Byte>, ghost content: seq<Byte>)
    returns (line': seq<Byte>, truncated': bool, consumed: nat, newline: bool, ghost content': seq<Byte>)
    requires buffer != [] && LF !in content && line == Kept(content) && truncated == (|content| > MAX_LINE_BYTES)
    ensures 0 < consumed <= |buffer| && LF !in content'
    ensures content + buffer == content' + (if newline then [LF] else []) + buffer[consumed..]
    ensures !newline ==> consumed == |buffer|
    ensures line' == Kept(content') && truncated' == (|content'| > MAX_LINE_BYTES)
  {
    var at := FindLF(buffer);
    newline := at.Some?;
    var contentLen := if newline then at.value else |buffer|;
    consumed := if newline then at.value + 1 else |buffer|;
    line', truncated' := line, truncated;
    content' := content + buffer[..contentLen];
    var copied := 0;
    if !truncated {
      var remaining := if |line| > MAX_LINE_BYTES then 0 else MAX_LINE_BYTES - |line|;
      copied := if contentLen < remaining then contentLen else remaining;
      line' := line + buffer[..copied];
      if copied < contentLen {
        truncated' := true;
      }
    }
    KeepMore(line, content, buffer, contentLen, copied);
    PieceTaken(content, buffer, contentLen, if newline then [LF] else [], consumed);
  }

  /** What has been delivered, followed by the lines still to come, is the whole. */
  ghost predicate OnTrack(delivered: seq<seq<Byte>>, ahead: seq<Byte>, whole: seq<Byte>, lossy: Lossy) {
    && delivered + Delivered(CompleteLines(ahead), lossy) == Delivered(CompleteLines(whole), lossy)
    && Rest(ahead) == Rest(whole)
  }

  predicate Bounded(s: seq<Byte>) { Valid(s) && |s| <= MAX_LINE_BYTES }

  ghost predicate AllBounded(delivered: seq<seq<Byte>>) {
    forall s :: s in delivered ==> Bounded(s)
  }

  lemma LineDelivered(delivered: seq<seq<Byte>>, finished: seq<Byte>, content: seq<Byte>, rest: seq<Byte>,
                      whole: seq<Byte>, lossy: Lossy)
    requires LF !in content && OnTrack(delivered, content + [LF] + rest, whole, lossy) && AllBounded(delivered)
    requires finished == Finished(Line(PopCR(Kept(content)), |content| > MAX_LINE_BYTES), lossy) && Bounded(finished)
    ensures OnTrack(delivered + [finished], rest, whole, lossy) && AllBounded(delivered + [finished])
  {
    var line := Line(PopCR(Kept(content)), |content| > MAX_LINE_BYTES);
    LinesStep(content, rest);
    DeliveredConcat([line], CompleteLines(rest), lossy);
    assert Delivered([line], lossy) == [finished];
    Associate(delivered, [finished], Delivered(CompleteLines(rest), lossy));
  }

  lemma AtEnd(delivered: seq<seq<Byte>>, content: seq<Byte>, whole: seq<Byte>, lossy: Lossy)
    requires LF !in content && OnTrack(delivered, content, whole, lossy)
    ensures delivered == Delivered(CompleteLines(whole), lossy)
    ensures delivered
            + (if content == [] then [] else [Finished(Line(Kept(content), |content| > MAX_LINE_BYTES), lossy)])
            == Delivered(AllLines(whole), lossy)
  {
    var last := if content == [] then [] else [Line(Kept(content), |content| > MAX_LINE_BYTES)];
    DeliveredConcat(CompleteLines(whole), last, lossy);
    assert AllLines(whole) == CompleteLines(whole) + last;
  }

  /** The string shows the line: its decoded text, with dots if it was truncated, cut to the bound. */
  ghost predicate ShowsLine(out: seq<Byte>, line: Line, lossy: Lossy) {
    IsCut(lossy(line.kept) + if line.truncated then ELLIPSIS else [], MAX_LINE_BYTES, out)
  }

  /** The strings show the first of the lines, one by one. */
  ghost predicate Shows(delivered: seq<seq<Byte>>, lines: seq<Line>, lossy: Lossy) {
    |delivered| <= |lines| && forall i :: 0 <= i < |delivered| ==> ShowsLine(delivered[i], lines[i], lossy)
  }

  lemma DeliveredShows(delivered: seq<seq<Byte>>, whole: seq<Byte>, lossy: Lossy)
    requires delivered <= Delivered(AllLines(whole), lossy)
    ensures Shows(delivered, AllLines(whole), lossy)
  {
    var lines := AllLines(whole);
    forall i | 0 <= i < |delivered| ensures ShowsLine(delivered[i], lines[i], lossy) {
      assert delivered[i] == Delivered(lines, lossy)[i] == Finished(lines[i], lossy);
      FinishedIsCut(lines[i], lossy);
    }
  }

  lemma OnTrackShows(delivered: seq<seq<Byte>>, ahead: seq<Byte>, whole: seq<Byte>, lossy: Lossy)
    requires OnTrack(delivered, ahead, whole, lossy)
    ensures Shows(delivered, AllLines(whole), lossy)
  {
    var complete := CompleteLines(whole);
    var unfinished := if Rest(whole) == [] then [] else [Line(Kept(Rest(whole)), |Rest(whole)| > MAX_LINE_BYTES)];
    assert AllLines(whole) == complete + unfinished;
    DeliveredConcat(complete, unfinished, lossy);
    assert delivered <= Delivered(complete, lossy);
    DeliveredShows(delivered, whole, lossy);
  }

  /**
   `stopAt` is the number of the first load that sees the stop flag set. However the stream is cut into reads,
   the delivered lines are those of the whole input; a stop or a read error leaves a prefix, the
   unfinished line undelivered. The line buffer stays within its bound, as do all delivered strings.
   */
  method ReadBoundedLines(script: seq<Read>, stopAt: Option<nat>, lossy: Lossy)
    returns (delivered: seq<seq<Byte>>, outcome: Outcome, peak: nat, polls: nat)
    requires forall b :: Valid(lossy(b))
    ensures outcome.Done? ==> !EndsInError(script) && delivered == Delivered(AllLines(Input(script)), lossy)
    ensures outcome.Failed? ==> EndsInError(script) && delivered == Delivered(CompleteLines(Input(script)), lossy)
    ensures outcome.Stopped? ==> delivered <= Delivered(CompleteLines(Input(script)), lossy)
    ensures polls > 0 && (stopAt.Some? ==> polls <= stopAt.value + 1)
    ensures outcome.Stopped? <==> stopAt.Some? && polls == stopAt.value + 1
    ensures |delivered| <= polls && (outcome.Stopped? ==> |delivered| < polls)
    ensures AllBounded(delivered)
    ensures Shows(delivered, AllLines(Input(script)), lossy)
    ensures peak <= MAX_LINE_BYTES
  {
    var buffer, rest, line, truncated := [], script, [], false;
    delivered, peak, polls := [], 0, 0;
    ghost var content, ahead, whole: seq<Byte> := [], Input(script), Input(script);
    StartReading(whole, lossy);
    while true
      invariant ahead == buffer + Input(rest) && Reading(delivered, line, truncated, content, ahead, whole, lossy)
      invariant EndsInError(rest) == EndsInError(script)
      invariant peak <= MAX_LINE_BYTES && (stopAt.Some? ==> polls <= stopAt.value) && |delivered| <= polls
      decreases |buffer| + TotalBytes(rest)
    {
      polls := polls + 1;
      if stopAt.Some? && polls == stopAt.value + 1 {
        OnTrackShows(delivered, content + ahead, whole, lossy);
        return delivered, Stopped, peak, polls;
      }
      var filled, held;
      filled, rest := FillBuf(buffer, rest);
      if filled.None? || filled.value == [] {
        delivered, outcome := EndOfStream(filled, delivered, line, truncated, lossy, content, ahead, whole);
        return;
      }
      delivered, line, truncated, buffer, held, content, ahead :=
        Consume(delivered, line, truncated, filled.value, lossy, content, ahead, Input(rest), whole);
      peak := if held > peak then held else peak;
    }
  }

  /** A read error ends the reader at once; the end of the stream delivers an unfinished line first. */
  method EndOfStream(filled: Option<seq<Byte>>, delivered: seq<seq<Byte>>, line: seq<Byte>, truncated: bool,
                     lossy: Lossy, ghost content: seq<Byte>, ghost ahead: seq<Byte>, ghost whole: seq<Byte>)
    returns (out: seq<seq<Byte>>, outcome: Outcome)
    requires forall b :: Valid(lossy(b))
    requires ahead == [] && Reading(delivered, line, truncated, content, ahead, whole, lossy)
    ensures AllBounded(out) && |out| <= |delivered| + 1
    ensures if filled.None? then outcome.Failed? && out == Delivered(CompleteLines(whole), lossy)
            else outcome.Done? && out == Delivered(AllLines(whole), lossy)
    ensures Shows(out, AllLines(whole), lossy)
  {
    if filled.None? {
      OnTrackShows(delivered, content + ahead, whole, lossy);
      return delivered, Failed;
    }
    out := EmitLast(delivered, line, truncated, lossy, content, whole);
    DeliveredShows(out, whole, lossy);
    outcome := Done;
  }

  /** The line buffer is the start of the current line, and what is delivered is on track. */
  ghost predicate Reading(delivered: seq<seq<Byte>>, line: seq<Byte>, truncated: bool, content: seq<Byte>,
                          ahead: seq<Byte>, whole: seq<Byte>, lossy: Lossy) {
    && LF !in content && line == Kept(content) && truncated == (|content| > MAX_LINE_BYTES)
    && OnTrack(delivered, content + ahead, whole, lossy) && AllBounded(delivered)
  }

  lemma StartReading(whole: seq<Byte>, lossy: Lossy)
    ensures Reading([], [], false, [], whole, whole, lossy)
  {
    assert [] + whole == whole;
  }

  /** One turn of the loop with a non-empty buffer. */
  method Consume(delivered: seq<seq<Byte>>, line: seq<Byte>, truncated: bool, buffer: seq<Byte>, lossy: Lossy,
                 ghost content: seq<Byte>, ghost ahead: seq<Byte>, ghost input: seq<Byte>, ghost whole: seq<Byte>)
    returns (delivered': seq<seq<Byte>>, line': seq<Byte>, truncated': bool, buffer': seq<Byte>, held: nat,
             ghost content': seq<Byte>, ghost ahead': seq<Byte>)
    requires forall b :: Valid(lossy(b))
    requires buffer != [] && ahead == buffer + input
             && Reading(delivered, line, truncated, content, ahead, whole, lossy)
    ensures ahead' == buffer' + input && Reading(delivered', line', truncated', content', ahead', whole, lossy)
    ensures |buffer'| < |buffer| && |delivered'| <= |delivered| + 1 && held <= MAX_LINE_BYTES
  {
    var consumed, newline;
    line', truncated', consumed, newline, content' := TakePiece(line, truncated, buffer, content);
    SplitAhead(content, ahead, buffer, input, content', newline, consumed);
    held := |line'|;
    delivered', buffer', ahead' := delivered, buffer[consumed..], buffer[consumed..] + input;
    if newline {
      delivered' := EmitLine(delivered, line', truncated', lossy, content', ahead', whole);
      line', truncated', content' := [], false, [];
      assert content' + ahead' == ahead';
    }
  }

  lemma SplitAhead(was: seq<Byte>, ahead: seq<Byte>, buffer: seq<Byte>, input: seq<Byte>, content: seq<Byte>,
                   newline: bool, consumed: nat)
    requires ahead == buffer + input && consumed <= |buffer|
    requires was + buffer == content + (if newline then [LF] else []) + buffer[consumed..]
    ensures var next := buffer[consumed..] + input;
            was + ahead == if newline then content + [LF] + next else content + next
  {
    assert was + ahead == (was + buffer) + input;
  }

  /** At the end of the stream an unfinished line is delivered as it is. */
  method EmitLast(delivered: seq<seq<Byte>>, line: seq<Byte>, truncated: bool, lossy: Lossy, ghost content: seq<Byte>,
                  ghost whole: seq<Byte>)
    returns (out: seq<seq<Byte>>)
    requires forall b :: Valid(lossy(b))
    requires LF !in content && line == Kept(content) && truncated == (|content| > MAX_LINE_BYTES)
    requires OnTrack(delivered, content, whole, lossy) && AllBounded(delivered)
    ensures out == Delivered(AllLines(whole), lossy) && AllBounded(out) && |out| <= |delivered| + 1
  {
    AtEnd(delivered, content, whole, lossy);
    out := delivered;
    if line != [] || truncated {
      var last := FinishLine(line, truncated, lossy);
      out := out + [last];
    }
  }

  /** A complete line: drop its carriage return, finish it, hand it over. */
  method EmitLine(delivered: seq<seq<Byte>>, line: seq<Byte>, truncated: bool, lossy: Lossy,
                  ghost content: seq<Byte>, ghost ahead: seq<Byte>, ghost whole: seq<Byte>)
    returns (out: seq<seq<Byte>>)
    requires forall b :: Valid(lossy(b))
    requires LF !in content && line == Kept(content) && truncated == (|content| > MAX_LINE_BYTES)
    requires OnTrack(delivered, content + [LF] + ahead, whole, lossy) && AllBounded(delivered)
    ensures OnTrack(out, ahead, whole, lossy) && AllBounded(out) && |out| == |delivered| + 1
  {
    var text := if line != [] && line[|line| - 1] == CR then line[..|line| - 1] else line;
    var finished := FinishLine(text, truncated, lossy);
    out := delivered + [finished];
    LineDelivered(delivered, finished, content, ahead, whole, lossy);
  }

  // ---------------------------------------------------------------- what the specification means

  /** Lines each ended by a line feed, then an unfinished one. */
  function Joined(lines: seq<seq<Byte>>, last: seq<Byte>): seq<Byte> {
    if lines == [] then last else lines[0] + [LF] + Joined(lines[1..], last)
  }

  /** The first bytes of a content, at most the bound, and whether there were more. */
  predicate KeepsStart(content: seq<Byte>, kept: seq<Byte>, truncated: bool) {
    && kept == content[..if |content| < MAX_LINE_BYTES then |content| else MAX_LINE_BYTES]
    && (truncated <==> |content| > MAX_LINE_BYTES)
  }

  /** The same, one carriage return at the end of the kept bytes dropped. */
  predicate KeepsStartWithoutCR(content: seq<Byte>, line: Line) {
    || KeepsStart(content, line.kept + [CR], line.truncated)
    || (KeepsStart(content, line.kept, line.truncated) && (line.kept != [] ==> line.kept[|line.kept| - 1] != CR))
  }

  /**
   Reading back a joined text yields its lines: each bounded, without one trailing carriage return
   when it was ended by a line feed, and marked exactly when it was too long.
   */
  lemma {:induction false} LinesOfJoined(lines: seq<seq<Byte>>, last: seq<Byte>)
    requires LF !in last && forall i :: 0 <= i < |lines| ==> LF !in lines[i]
    ensures |CompleteLines(Joined(lines, last))| == |lines|
    ensures forall i :: 0 <= i < |lines| ==>
              CompleteLines(Joined(lines, last))[i] == Line(PopCR(Kept(lines[i])), |lines[i]| > MAX_LINE_BYTES)
    ensures Rest(Joined(lines, last)) == last
  {
    if lines == [] {
    } else {
      LinesOfJoined(lines[1..], last);
      LinesStep(lines[0], Joined(lines[1..], last));
    }
  }

  /**
   In full: the ended lines keep their starts, one carriage return less, and a non-empty unfinished
   line follows with its start kept as it is.
   */
  lemma AllLinesOfJoined(lines: seq<seq<Byte>>, last: seq<Byte>)
    requires LF !in last && forall i :: 0 <= i < |lines| ==> LF !in lines[i]
    ensures var all := AllLines(Joined(lines, last));
            && |all| == |lines| + (if last == [] then 0 else 1)
            && (forall i :: 0 <= i < |lines| ==> KeepsStartWithoutCR(lines[i], all[i]))
            && (last != [] ==> KeepsStart(last, all[|lines|].kept, all[|lines|].truncated))
  {
    LinesOfJoined(lines, last);
    forall i | 0 <= i < |lines| ensures KeepsStartWithoutCR(lines[i], AllLines(Joined(lines, last))[i]) {
      KeptWithoutCR(lines[i]);
      assert AllLines(Joined(lines, last))[i] == CompleteLines(Joined(lines, last))[i];
    }
  }

  lemma KeptWithoutCR(content: seq<Byte>)
    ensures KeepsStartWithoutCR(content, Line(PopCR(Kept(content)), |content| > MAX_LINE_BYTES))
  {
    var kept := Kept(content);
    if kept != [] && kept[|kept| - 1] == CR {
      assert kept == kept[..|kept| - 1] + [CR];
    }
  }

  /** The reads a stream of non-empty chunks gives. */
  function ReadsOf(chunks: seq<seq<Byte>>): seq<Read> {
    seq(|chunks|, i requires 0 <= i < |chunks| => Chunk(chunks[i]))
  }

  /** However a text is cut into non-empty chunks, the reader's input is the text. */
  lemma {:induction false} ChunkingIrrelevant(chunks: seq<seq<Byte>>)
    requires forall i :: 0 <= i < |chunks| ==> chunks[i] != []
    ensures Input(ReadsOf(chunks)) == Flatten(chunks) && !EndsInError(ReadsOf(chunks))
    decreases |chunks|
  {
    if chunks != [] {
      ChunkingIrrelevant(chunks[1..]);
      assert ReadsOf(chunks)[1..] == ReadsOf(chunks[1..]);
    }
  }

  lemma {:induction false} InputThen(chunks: seq<seq<Byte>>, tail: seq<Read>)
    requires forall i :: 0 <= i < |chunks| ==> chunks[i] != []
    ensures Input(ReadsOf(chunks) + tail) == Flatten(chunks) + Input(tail)
    ensures EndsInError(ReadsOf(chunks) + tail) == EndsInError(tail)
    decreases |chunks|
  {
    if chunks == [] {
      assert ReadsOf(chunks) + tail == tail;
      assert Flatten(chunks) + Input(tail) == Input(tail);
    } else {
      InputThen(chunks[1..], tail);
      assert (ReadsOf(chunks) + tail)[1..] == ReadsOf(chunks[1..]) + tail;
    }
  }

  /** A read error or an empty read ends the input, whatever would follow, and only the error counts as one. */
  lemma InputEnds(chunks: seq<seq<Byte>>, more: seq<Read>)
    requires forall i :: 0 <= i < |chunks| ==> chunks[i] != []
    ensures Input(ReadsOf(chunks) + ([Error] + more)) == Flatten(chunks)
    ensures Input(ReadsOf(chunks) + ([Chunk([])] + more)) == Flatten(chunks)
    ensures EndsInError(ReadsOf(chunks) + ([Error] + more)) && !EndsInError(ReadsOf(chunks) + ([Chunk([])] + more))
  {
    InputThen(chunks, [Error] + more);
    InputThen(chunks, [Chunk([])] + more);
    assert Flatten(chunks) + [] == Flatten(chunks);
  }
}

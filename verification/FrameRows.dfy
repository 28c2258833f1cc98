/**
 Decoded video frames with padded rows, and the tight BGRA buffer the renderer needs.

 The width, height and stride of a frame are 32-bit; lengths and offsets are `usize`, whose largest
 value belongs to the target and has at least 32 bits; no buffer may be longer than half of that.
 Checked arithmetic is written out. A result is a value, an error, or a panic: of a failed slice, of
 an `expect`, or of a capacity request above that bound.
 */
module FrameRows {
  import opened Basics

  type U32 = n: nat | n < 0x1_0000_0000

  datatype Outcome<T> = Ok(value: T) | Err(message: string) | Panic

  datatype VideoFrame = VideoFrame(width: U32, height: U32, stride: U32, data: seq<Byte>)

  datatype Image = Image(width: U32, height: U32, pixels: seq<Byte>)

  /** A compilation target: the largest `usize`, and the largest length of a buffer, the largest `isize`. */
  datatype Target = Target(usizeMax: nat, isizeMax: nat) {
    predicate Valid() { 0xFFFF_FFFF <= usizeMax == 2 * isizeMax + 1 }
  }

  ghost predicate Allocated(t: Target, data: seq<Byte>) {
    t.Valid() && |data| <= t.isizeMax
  }

  function CheckedMul(a: nat, b: nat, max: nat): Option<nat> { if a * b <= max then Some(a * b) else None }
  function CheckedAdd(a: nat, b: nat, max: nat): Option<nat> { if a + b <= max then Some(a + b) else None }

  // ---------------------------------------------------------------- the layout check

  /** A frame the renderer can show: rows that hold their pixels, and data for every row with its padding. */
  predicate Renderable(t: Target, width: U32, height: U32, stride: U32, byteLen: nat) {
    width > 0 && height > 0 && 4 * width <= stride && stride * height <= t.usizeMax && stride * height <= byteLen
  }

  function ValidateFrameLayout(t: Target, width: U32, height: U32, stride: U32, byteLen: nat): (r: Outcome<()>)
    ensures r.Ok? <==> Renderable(t, width, height, stride, byteLen)
    ensures !r.Panic?
  {
    if width == 0 || height == 0 then Err("dimensions are zero")
    else if CheckedMul(width, 4, 0xFFFF_FFFF).None? then Err("row length overflow")
    else if stride < width * 4 then Err("stride is too small")
    else if CheckedMul(stride, height, t.usizeMax).None? then Err("frame length overflow")
    else if byteLen < stride * height then Err("frame data is incomplete")
    else Ok(())
  }

  // ---------------------------------------------------------------- rows

  /** Every row is inside the data. */
  ghost predicate RowsInside(data: seq<Byte>, stride: nat, rowLen: nat, height: nat) {
    forall row: nat :: row < height ==> RowInside(data, stride, rowLen, row)
  }

  predicate RowInside(data: seq<Byte>, stride: nat, rowLen: nat, row: nat) { row * stride + rowLen <= |data| }

  lemma RowsInsideByLast(data: seq<Byte>, stride: nat, rowLen: nat, height: nat)
    ensures RowsInside(data, stride, rowLen, height) <==> (height > 0 ==> (height - 1) * stride + rowLen <= |data|)
  {
    if height > 0 {
      assert RowInside(data, stride, rowLen, height - 1) <==> (height - 1) * stride + rowLen <= |data|;
      forall row: nat | row < height ensures row * stride <= (height - 1) * stride {
        MulMonotone(row, height - 1, stride);
      }
    }
  }

  /** The rows without their padding, one after the other. */
  function TightRows(data: seq<Byte>, stride: nat, rowLen: nat, height: nat): (out: seq<Byte>)
    requires RowsInside(data, stride, rowLen, height)
  {
    if height == 0 then []
    else
      assert RowInside(data, stride, rowLen, height - 1);
      TightRows(data, stride, rowLen, height - 1) + data[(height - 1) * stride..(height - 1) * stride + rowLen]
  }

  lemma {:induction false} TightRowsLength(data: seq<Byte>, stride: nat, rowLen: nat, height: nat)
    requires RowsInside(data, stride, rowLen, height)
    ensures |TightRows(data, stride, rowLen, height)| == rowLen * height
  {
    if height > 0 {
      TightRowsLength(data, stride, rowLen, height - 1);
      assert rowLen * height == rowLen * (height - 1) + rowLen;
      assert RowInside(data, stride, rowLen, height - 1);
    }
  }

  /** One more row stands behind the rows above it. */
  lemma NextRow(data: seq<Byte>, stride: nat, rowLen: nat, above: nat) returns (start: nat)
    requires RowsInside(data, stride, rowLen, above + 1)
    ensures RowsInside(data, stride, rowLen, above)
    ensures start == above * stride && start + rowLen <= |data|
    ensures TightRows(data, stride, rowLen, above + 1)
            == TightRows(data, stride, rowLen, above) + data[start..start + rowLen]
  {
    assert RowInside(data, stride, rowLen, above);
    start := above * stride;
  }

  /** Byte `c` of row `r` of the tight buffer is byte `c` of row `r` of the frame. */
  lemma {:induction false} TightRowsAt(data: seq<Byte>, stride: nat, rowLen: nat, height: nat, r: nat, c: nat)
    requires RowsInside(data, stride, rowLen, height) && r < height && c < rowLen
    ensures r * rowLen + c < |TightRows(data, stride, rowLen, height)| && RowInside(data, stride, rowLen, r)
    ensures TightRows(data, stride, rowLen, height)[r * rowLen + c] == data[r * stride + c]
  {
    if r < height - 1 {
      var start := NextRow(data, stride, rowLen, height - 1);
      TightRowsAt(data, stride, rowLen, height - 1, r, c);
    } else {
      var start := NextRow(data, stride, rowLen, r);
      TightRowsLength(data, stride, rowLen, r);
    }
  }

  /** Without padding the rows are a prefix of the data: the fast path copies what the row loop would. */
  lemma {:induction false} UnpaddedRows(data: seq<Byte>, rowLen: nat, height: nat)
    requires rowLen * height <= |data|
    ensures RowsInside(data, rowLen, rowLen, height)
    ensures TightRows(data, rowLen, rowLen, height) == data[..rowLen * height]
  {
    if height == 0 {
      assert data[..rowLen * 0] == [];
    } else {
      var n := rowLen * (height - 1);
      assert rowLen * height == n + rowLen && (height - 1) * rowLen == n;
      UnpaddedRows(data, rowLen, height - 1);
      RowsInsideByLast(data, rowLen, rowLen, height);
      assert data[..n + rowLen] == data[..n] + data[n..n + rowLen];
    }
  }

  /** Copy row by row, with every offset checked. Asking for too much capacity panics before any row is looked at. */
  method CompactBgraRows(t: Target, data: seq<Byte>, stride: nat, rowLen: nat, height: nat)
    returns (r: Outcome<seq<Byte>>)
    requires Allocated(t, data)
    ensures r.Panic? <==> t.isizeMax < rowLen * height <= t.usizeMax
    ensures r.Ok? <==> rowLen * height <= t.isizeMax && RowsInside(data, stride, rowLen, height)
    ensures r.Ok? ==> r.value == TightRows(data, stride, rowLen, height)
  {
    var tightLen := CheckedMul(rowLen, height, t.usizeMax);
    if tightLen.None? {
      return Err("frame length overflow");
    }
    if tightLen.value > t.isizeMax {
      return Panic;
    }
    var output: seq<Byte> := [];
    for row := 0 to height
      invariant RowsInside(data, stride, rowLen, row)
      invariant output == TightRows(data, stride, rowLen, row)
    {
      var start := CheckedMul(row, stride, t.usizeMax);
      if start.None? {
        assert !RowInside(data, stride, rowLen, row);
        return Err("row offset overflow");
      }
      var end := CheckedAdd(start.value, rowLen, t.usizeMax);
      if end.None? {
        assert !RowInside(data, stride, rowLen, row);
        return Err("row end overflow");
      }
      if end.value > |data| {
        assert !RowInside(data, stride, rowLen, row);
        return Err("frame data is incomplete");
      }
      assert RowInside(data, stride, rowLen, row);
      output := output + data[start.value..end.value];
    }
    return Ok(output);
  }

  // ---------------------------------------------------------------- the two conversions

  ghost predicate RowPath(t: Target, f: VideoFrame) {
    && 4 * f.width <= t.usizeMax && 4 * f.width * f.height <= t.isizeMax
    && RowsInside(f.data, f.stride, 4 * f.width, f.height)
  }

  /** The fast path is taken but the data is shorter than the pixels it should hold. */
  predicate ShortUnpadded(t: Target, f: VideoFrame) {
    f.stride == 4 * f.width && |f.data| < 4 * f.width * f.height <= t.usizeMax
  }

  /** The row path is taken and the pixels pass the checked product but are more than any buffer can hold. */
  predicate Oversized(t: Target, f: VideoFrame) {
    f.stride != 4 * f.width && t.isizeMax < 4 * f.width * f.height <= t.usizeMax
  }

  lemma UnpaddedInside(data: seq<Byte>, n: nat, height: nat)
    ensures RowsInside(data, n, n, height) <==> n * height <= |data|
  {
    if n * height <= |data| { UnpaddedRows(data, n, height); }
    RowsInsideByLast(data, n, n, height);
    assert height > 0 ==> (height - 1) * n + n == n * height;
  }

  /** On the fast path, `n` being the tight length. */
  lemma FastPath(t: Target, f: VideoFrame, n: nat)
    requires Allocated(t, f.data) && f.stride == 4 * f.width <= t.usizeMax && n == 4 * f.width * f.height
    ensures !Oversized(t, f) && (ShortUnpadded(t, f) <==> |f.data| < n <= t.usizeMax)
    ensures RowPath(t, f) <==> n <= |f.data|
    ensures n <= |f.data| ==> f.data[..n] == TightRows(f.data, f.stride, 4 * f.width, f.height)
  {
    UnpaddedInside(f.data, f.stride, f.height);
    if n <= |f.data| { UnpaddedRows(f.data, f.stride, f.height); }
  }

  /** The row path cannot be taken when four times the width does not fit. */
  lemma TooWide(t: Target, f: VideoFrame)
    requires Allocated(t, f.data) && t.usizeMax < 4 * f.width
    ensures !RowPath(t, f) && !ShortUnpadded(t, f) && !Oversized(t, f)
  {
    if f.height > 0 { MulMonotone(1, f.height, 4 * f.width); }
  }

  /** The copying conversion: it slices, so short unpadded data panics, as does an oversized frame. */
  method TightBgraBytes(t: Target, f: VideoFrame) returns (r: Outcome<seq<Byte>>)
    requires Allocated(t, f.data)
    ensures r.Panic? <==> ShortUnpadded(t, f) || Oversized(t, f)
    ensures r.Ok? <==> RowPath(t, f)
    ensures r.Ok? ==> r.value == TightRows(f.data, f.stride, 4 * f.width, f.height)
  {
    var rowLen := CheckedMul(f.width, 4, t.usizeMax);
    if rowLen.None? {
      TooWide(t, f);
      return Err("row length overflow");
    }
    if f.stride == rowLen.value {
      FastPath(t, f, rowLen.value * f.height);
      var tightLen := CheckedMul(rowLen.value, f.height, t.usizeMax);
      if tightLen.None? {
        return Err("frame length overflow");
      }
      if |f.data| < tightLen.value {
        return Panic;
      }
      return Ok(f.data[..tightLen.value]);
    }
    r := CompactBgraRows(t, f.data, f.stride, rowLen.value, f.height);
  }

  /** The consuming conversion: it truncates, so short unpadded data comes back as it is. */
  method IntoTightBgraBytes(t: Target, f: VideoFrame) returns (r: Outcome<seq<Byte>>)
    requires Allocated(t, f.data)
    ensures r.Panic? <==> Oversized(t, f)
    ensures r.Ok? <==> RowPath(t, f) || ShortUnpadded(t, f)
    ensures RowPath(t, f) ==> r == Ok(TightRows(f.data, f.stride, 4 * f.width, f.height))
    ensures ShortUnpadded(t, f) ==> r == Ok(f.data)
  {
    var rowLen := CheckedMul(f.width, 4, t.usizeMax);
    if rowLen.None? {
      TooWide(t, f);
      return Err("row length overflow");
    }
    var tightLen := CheckedMul(rowLen.value, f.height, t.usizeMax);
    if tightLen.None? {
      ProductTooLarge(t, f);
      return Err("frame length overflow");
    }
    if f.stride == rowLen.value {
      FastPath(t, f, tightLen.value);
      var data := f.data;
      if tightLen.value < |data| {
        data := data[..tightLen.value];
      }
      assert tightLen.value == |f.data| ==> f.data[..tightLen.value] == f.data;
      return Ok(data);
    }
    r := CompactBgraRows(t, f.data, f.stride, rowLen.value, f.height);
  }

  lemma ProductTooLarge(t: Target, f: VideoFrame)
    requires Allocated(t, f.data) && t.usizeMax < 4 * f.width * f.height
    ensures !RowPath(t, f) && !ShortUnpadded(t, f) && !Oversized(t, f)
  {
  }

  // ---------------------------------------------------------------- the renderer

  /** The image library takes a buffer that holds at least the pixels. */
  function FromRaw(width: U32, height: U32, bytes: seq<Byte>): Option<Image> {
    if 4 * width * height <= |bytes| then Some(Image(width, height, bytes)) else None
  }

  /** The only way to make a frame; its fields stay open to change. */
  method Bgra(t: Target, width: U32, height: U32, stride: U32, data: seq<Byte>)
    returns (r: Outcome<VideoFrame>)
    requires Allocated(t, data)
    ensures r.Ok? <==> Renderable(t, width, height, stride, |data|)
    ensures r.Ok? ==> r.value == VideoFrame(width, height, stride, data)
    ensures !r.Panic?
  {
    var valid := ValidateFrameLayout(t, width, height, stride, |data|);
    if valid.Err? {
      return Err(valid.message);
    }
    return Ok(VideoFrame(width, height, stride, data));
  }

  /** A renderable frame fits every checked product, capacity and row of both conversions. */
  lemma RenderableConverts(t: Target, f: VideoFrame)
    requires Allocated(t, f.data) && Renderable(t, f.width, f.height, f.stride, |f.data|)
    ensures RowPath(t, f) && !ShortUnpadded(t, f) && !Oversized(t, f)
  {
    var rowLen := 4 * f.width;
    MulMonotone(rowLen, f.stride, f.height);
    assert (f.height - 1) * f.stride + f.stride == f.stride * f.height;
    RowsInsideByLast(f.data, f.stride, rowLen, f.height);
  }

  /** The image shows the frame: its pixels are the frame's rows without their padding. */
  ghost predicate Shows(image: Image, f: VideoFrame) {
    && image.width == f.width && image.height == f.height
    && |image.pixels| == 4 * f.width * f.height
    && forall r: nat, c: nat :: r < f.height && c < 4 * f.width ==> PixelShown(image, f, r, c)
  }

  predicate PixelShown(image: Image, f: VideoFrame, r: nat, c: nat) {
    && r * (4 * f.width) + c < |image.pixels| && r * f.stride + c < |f.data|
    && image.pixels[r * (4 * f.width) + c] == f.data[r * f.stride + c]
  }

  lemma TightRowsShow(f: VideoFrame)
    requires RowsInside(f.data, f.stride, 4 * f.width, f.height)
    ensures Shows(Image(f.width, f.height, TightRows(f.data, f.stride, 4 * f.width, f.height)), f)
  {
    var image := Image(f.width, f.height, TightRows(f.data, f.stride, 4 * f.width, f.height));
    TightRowsLength(f.data, f.stride, 4 * f.width, f.height);
    forall r: nat, c: nat | r < f.height && c < 4 * f.width ensures PixelShown(image, f, r, c) {
      TightRowsAt(f.data, f.stride, 4 * f.width, f.height, r, c);
    }
  }

  /**
   What follows the check: convert, then hand the buffer to the image library; each `expect` panics
   on failure.
   */
  method BuildImage(t: Target, f: VideoFrame, unique: bool) returns (r: Outcome<Image>)
    requires Allocated(t, f.data)
    ensures RowPath(t, f) && !ShortUnpadded(t, f) && !Oversized(t, f) ==> r.Ok? && Shows(r.value, f)
  {
    var bytes;
    if unique {
      bytes := IntoTightBgraBytes(t, f);
      if bytes.Err? {
        return Panic;
      }
    } else {
      bytes := TightBgraBytes(t, f);
      if bytes.Err? {
        return Err(bytes.message);
      }
    }
    if bytes.Panic? {
      return Panic;
    }
    var image := FromRaw(f.width, f.height, bytes.value);
    if image.None? {
      if RowPath(t, f) { TightRowsShow(f); }
      return Panic;
    }
    if RowPath(t, f) { TightRowsShow(f); }
    return Ok(image.value);
  }

  /**
   Turn a claimed frame into an image; `unique` says whether nobody else holds it. Neither `expect`
   can fail, no slice and no capacity request can panic: the frame is rejected exactly when its
   layout is not renderable, and then handed back; otherwise it is shown, whichever conversion ran.
   */
  method RenderImageFromOwnedFrame(t: Target, f: VideoFrame, unique: bool)
    returns (r: Outcome<Image>, returned: Option<VideoFrame>)
    requires Allocated(t, f.data)
    ensures !r.Panic?
    ensures r.Ok? <==> Renderable(t, f.width, f.height, f.stride, |f.data|)
    ensures r.Ok? ==> Shows(r.value, f)
    ensures returned == if r.Ok? then None else Some(f)
  {
    var valid := ValidateFrameLayout(t, f.width, f.height, f.stride, |f.data|);
    if valid.Err? {
      return Err(valid.message), Some(f);
    }
    RenderableConverts(t, f);
    r := BuildImage(t, f, unique);
    returned := if r.Err? then Some(f) else None;
  }

  /**
   The borrowing renderer does not check the layout first. It panics exactly on short unpadded data
   and on oversized padded frames. It also shows frames of zero size, with overlapping rows, or
   without padding after the last row, which the check rejects.
   */
  method RenderImageFromFrame(t: Target, f: VideoFrame) returns (r: Outcome<Image>)
    requires Allocated(t, f.data)
    ensures r.Panic? <==> ShortUnpadded(t, f) || Oversized(t, f)
    ensures r.Ok? <==> RowPath(t, f)
    ensures r.Ok? ==> Shows(r.value, f)
  {
    var bytes := TightBgraBytes(t, f);
    if bytes.Panic? {
      return Panic;
    } else if bytes.Err? {
      return Err(bytes.message);
    }
    TightRowsShow(f);
    var image := FromRaw(f.width, f.height, bytes.value);
    if image.None? {
      return Err("invalid image dimensions");
    }
    return Ok(image.value);
  }

  /** A frame of one pixel can be made; changing its open fields, the data staying, gives each kind of panic. */
  lemma FramesThatPanic()
    ensures var t := Target(0xFFFF_FFFF_FFFF_FFFF, 0x7FFF_FFFF_FFFF_FFFF);
            && t.Valid()
            && Renderable(t, 1, 1, 4, |[0, 0, 0, 0]|)
            && ShortUnpadded(t, VideoFrame(1, 2, 4, [0, 0, 0, 0]))
            && Oversized(t, VideoFrame(0x8000_0000, 0x4000_0000, 4, [0, 0, 0, 0]))
  {
    assert 4 * 0x8000_0000 * 0x4000_0000 == 0x8000_0000_0000_0000;
  }

  lemma RowAndColumn(i: nat, n: nat, height: nat) returns (r: nat, c: nat)
    requires n > 0 && i < n * height
    ensures i == r * n + c && r < height && c < n
  {
    r, c := i / n, i % n;
    assert i == r * n + c;
    if r >= height { MulMonotone(height, r, n); }
  }

  /** One frame is shown in one way. */
  lemma ShownOnce(image: Image, image': Image, f: VideoFrame)
    requires f.width > 0 && Shows(image, f) && Shows(image', f)
    ensures image == image'
  {
    var n := 4 * f.width;
    forall i | 0 <= i < |image.pixels| ensures image.pixels[i] == image'.pixels[i] {
      var r, c := RowAndColumn(i, n, f.height);
      assert PixelShown(image, f, r, c) && PixelShown(image', f, r, c);
    }
  }
}
